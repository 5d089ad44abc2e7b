// Catch-up between nodes (network/sync.go): a peer's certificates, sent in canonical order,
// rebuild its DAG.
module Sync {
  import opened Types
  import opened Lists
  import opened History
  import opened Ordering
  import opened Dag
  import opened Orphans

  // What a responder's DAG satisfies when nothing was pruned: consistent views, closed under
  // parents, every stored round open in memory.
  ghost predicate Complete(u: Graph, s: DagState) {
    && Core(u, s) && HighestBounds(s) && Closed(u, s.index.Keys)
    && forall d :: d in s.store ==> s.store[d].Round() in s.rounds
  }

  ghost function Below(s: DagState, r: nat): set<Hash> {
    set d | d in s.index && s.index[d].Round() < r
  }

  // The list GetOrderedCertificates returns for the rounds from..to-1.
  ghost predicate Listing(s: DagState, from: nat, to: nat, cs: seq<Certificate>) {
    Sorted(cs) && NoDup(cs) && Elems(cs) == RangeCerts(s, from, to)
  }

  lemma ListedIsIndexed(u: Graph, s: DagState, from: nat, to: nat, cs: seq<Certificate>, c: Certificate)
    requires Complete(u, s) && Listing(s, from, to, cs)
    ensures c in cs <==> c.Digest() in s.index && s.index[c.Digest()] == c && from <= c.Round() < to
  {
    RangeCertsAreIndexed(s, from, to);
    assert c in cs <==> c in Elems(cs);
    if c in cs {
      var d :| d in s.index && from <= s.index[d].Round() < to && s.index[d] == c;
      assert Holds(s.rounds, s.index[d].Round(), s.index[d].Author(), s.index[d]);
    }
  }

  // In canonical order every parent precedes its child, or lies below the window.
  lemma ParentsComeFirst(u: Graph, s: DagState, from: nat, to: nat, cs: seq<Certificate>, i: nat)
    requires World(u) && Complete(u, s) && Listing(s, from, to, cs) && i < |cs|
    ensures cs[i].Round() > 0 ==> cs[i].Parents() <= Below(s, from) + Digests(cs[..i])
  {
    ListedIsIndexed(u, s, from, to, cs, cs[i]);
    if cs[i].Round() > 0 {
      assert Direct(u, s.index.Keys, cs[i].Digest());
      forall p | p in cs[i].Parents() ensures p in Below(s, from) + Digests(cs[..i]) {
        var parent := s.index[p];
        assert parent.Round() < cs[i].Round();
        if from <= parent.Round() {
          assert parent.Digest() == p;
          ListedIsIndexed(u, s, from, to, cs, parent);
          var j :| 0 <= j < |cs| && cs[j] == parent;
          assert j < i;
          assert cs[..i][j] == parent;
        }
      }
    }
  }

  // The recorded highest round is attained and bounds every indexed certificate.
  ghost predicate Tops(s: DagState) {
    HighestBounds(s) && (s.highest == 0 || exists d :: d in s.index && s.index[d].Round() == s.highest)
  }

  // A requester that holds exactly the given digests, with nothing buffered.
  ghost predicate HoldsExactly(u: Graph, n: NodeState, t: set<Hash>) {
    Core(u, n.dag) && Tops(n.dag) && n.orphans == map[] && n.dag.index.Keys == t && n.dag.store.Keys <= t
  }

  // Nothing buffered means nothing to replay.
  lemma NothingToReplay(cfg: Config, n: NodeState, n': NodeState)
    requires n.orphans == map[] && Drained(cfg, n, n')
    ensures n' == n
  {
    var tries :| Tries(cfg, n, tries) && Replayed(cfg, n, tries) == n';
    NoTries(cfg, n, tries);
  }

  lemma {:induction false} NoTries(cfg: Config, n: NodeState, tries: seq<Certificate>)
    requires n.orphans == map[] && Tries(cfg, n, tries)
    ensures tries == []
    decreases |tries|
  {
    if tries != [] { NoTries(cfg, n, tries[..|tries| - 1]); }
  }

  lemma AddKeepsTops(cfg: Config, s: DagState, c: Certificate)
    requires Tops(s) && (c.Digest() in s.index ==> SlotTaken(s, c))
    ensures Tops(AddSpec(cfg, s, c))
  {
    var s' := AddSpec(cfg, s, c);
    if AddOutcome(s, c) == Added {
      assert s'.index[c.Digest()] == c;
      if s.highest > c.Round() {
        var d :| d in s.index && s.index[d].Round() == s.highest;
        assert s'.index[d].Round() == s'.highest;
      }
    }
  }

  ghost predicate Receive(cfg: Config, n: NodeState, m: Msg, n': NodeState) {
    Delivered(cfg, n, m, n')
  }

  // How the DAG answers a delivered certificate.
  ghost function Answer(cfg: Config, n: NodeState, m: Msg): AddResult {
    AddOutcome(PrimarySaves(cfg, n.dag, m), m.c)
  }

  // A certificate whose parents are all held is accepted at once, or is held already.
  lemma HeldParentsMeanAdded(cfg: Config, u: Graph, n: NodeState, t: set<Hash>, m: Msg, n': NodeState)
    requires World(u) && HoldsExactly(u, n, t) && Of(u, m.c)
    requires m.c.Round() > 0 ==> m.c.Parents() <= t
    requires Receive(cfg, n, m, n')
    ensures Answer(cfg, n, m) == if m.c.Digest() in t then DuplicateHeader else Added
    ensures HoldsExactly(u, n', t + {m.c.Digest()})
  {
    var s := PrimarySaves(cfg, n.dag, m);
    assert Core(u, s) && Tops(s);
    SlotTakenMeansIndexed(u, s, m.c);
    assert s.index == n.dag.index && t <= s.Known().Keys;
    AfterAddCore(cfg, u, t, n, m);
    AddKeepsTops(cfg, s, m.c);
    if m.c.Digest() !in t {
      NothingToReplay(cfg, NodeState(AfterAdd(cfg, n, m), n.orphans), n');
    }
  }

  // ns lists the requester's states while it handles the listed certificates one by one.
  ghost predicate Receives(cfg: Config, cs: seq<Certificate>, verified: seq<bool>, ns: seq<NodeState>) {
    && |verified| == |cs| && |ns| == |cs| + 1
    && forall i :: 0 <= i < |cs| ==> Receive(cfg, ns[i], Msg(cs[i], verified[i]), ns[i + 1])
  }

  // A window of canonical order extends the requester by exactly that window, and no certificate
  // is ever buffered; each is accepted on arrival or held already (WindowAccepts).
  lemma {:induction false} WindowExtends(cfg: Config, u: Graph, s: DagState, from: nat, to: nat, cs: seq<Certificate>,
                                         verified: seq<bool>, ns: seq<NodeState>, t: set<Hash>, i: nat)
    requires World(u) && Complete(u, s) && Listing(s, from, to, cs) && Receives(cfg, cs, verified, ns) && i <= |cs|
    requires HoldsExactly(u, ns[0], t) && Below(s, from) <= t
    ensures HoldsExactly(u, ns[i], t + Digests(cs[..i]))
    decreases i
  {
    if i == 0 {
      assert t + Digests(cs[..i]) == t;
    } else {
      var j := i - 1;
      WindowExtends(cfg, u, s, from, to, cs, verified, ns, t, j);
      assert Receive(cfg, ns[j], Msg(cs[j], verified[j]), ns[j + 1]);
      WindowStep(cfg, u, s, from, to, cs, t, j, ns[j], Msg(cs[j], verified[j]), ns[j + 1]);
    }
  }

  lemma WindowAccepts(cfg: Config, u: Graph, s: DagState, from: nat, to: nat, cs: seq<Certificate>,
                      verified: seq<bool>, ns: seq<NodeState>, t: set<Hash>, j: nat)
    requires World(u) && Complete(u, s) && Listing(s, from, to, cs) && Receives(cfg, cs, verified, ns) && j < |cs|
    requires HoldsExactly(u, ns[0], t) && Below(s, from) <= t
    ensures Answer(cfg, ns[j], Msg(cs[j], verified[j])) != MissingParents
  {
    WindowExtends(cfg, u, s, from, to, cs, verified, ns, t, j);
    assert Receive(cfg, ns[j], Msg(cs[j], verified[j]), ns[j + 1]);
    WindowStep(cfg, u, s, from, to, cs, t, j, ns[j], Msg(cs[j], verified[j]), ns[j + 1]);
  }

  lemma WindowStep(cfg: Config, u: Graph, s: DagState, from: nat, to: nat, cs: seq<Certificate>, t: set<Hash>, i: nat,
                   n: NodeState, m: Msg, n': NodeState)
    requires World(u) && Complete(u, s) && Listing(s, from, to, cs) && i < |cs| && m.c == cs[i]
    requires HoldsExactly(u, n, t + Digests(cs[..i])) && Below(s, from) <= t && Receive(cfg, n, m, n')
    ensures Answer(cfg, n, m) != MissingParents && HoldsExactly(u, n', t + Digests(cs[..i + 1]))
  {
    assert Of(u, cs[i]) by { ListedIsIndexed(u, s, from, to, cs, cs[i]); }
    assert cs[i].Round() > 0 ==> cs[i].Parents() <= t + Digests(cs[..i]) by { ParentsComeFirst(u, s, from, to, cs, i); }
    HeldParentsMeanAdded(cfg, u, n, t + Digests(cs[..i]), m, n');
    DigestsUpTo(cs, i);
    assert t + Digests(cs[..i]) + {cs[i].Digest()} == t + Digests(cs[..i + 1]);
  }

  lemma DigestsUpTo(cs: seq<Certificate>, i: nat)
    requires i < |cs|
    ensures Digests(cs[..i + 1]) == Digests(cs[..i]) + {cs[i].Digest()}
  {
    assert cs[..i + 1] == cs[..i] + [cs[i]];
    DigestsAppend(cs[..i], [cs[i]]);
    assert Digests([cs[i]]) == {cs[i].Digest()};
  }

  lemma WindowDigests(u: Graph, s: DagState, from: nat, to: nat, cs: seq<Certificate>)
    requires Complete(u, s) && from <= to && Listing(s, from, to, cs)
    ensures Below(s, from) + Digests(cs) == Below(s, to)
  {
    forall d ensures d in Below(s, from) + Digests(cs) <==> d in Below(s, to) {
      if d in Digests(cs) {
        var c :| c in cs && c.Digest() == d;
        ListedIsIndexed(u, s, from, to, cs, c);
      }
      if d in Below(s, to) && d !in Below(s, from) {
        assert s.index[d].Digest() == d;
        ListedIsIndexed(u, s, from, to, cs, s.index[d]);
      }
    }
  }

  lemma BelowBounds(s: DagState)
    requires HighestBounds(s)
    ensures Below(s, 0) == {} && Below(s, s.highest + 1) == s.index.Keys
  {
    forall d ensures d !in Below(s, 0) && (d in s.index <==> d in Below(s, s.highest + 1)) {
      if d in s.index { assert 0 <= s.index[d].Round() <= s.highest; }
    }
  }

  // A sync from round 0 of a complete DAG that fits one response rebuilds exactly that DAG,
  // skipping no certificate for missing parents.
  lemma FullSyncRebuilds(cfg: Config, u: Graph, s: DagState, cs: seq<Certificate>, verified: seq<bool>,
                         ns: seq<NodeState>)
    requires World(u) && Complete(u, s) && Listing(s, 0, s.highest + 1, cs) && Receives(cfg, cs, verified, ns)
    requires ns[0] == NodeState(Empty(), map[])
    ensures Exactly(u, ns[|cs|].dag.index, s.index.Keys) && ns[|cs|].orphans == map[]
    ensures forall j :: 0 <= j < |cs| ==> Answer(cfg, ns[j], Msg(cs[j], verified[j])) != MissingParents
  {
    BelowBounds(s);
    WindowExtends(cfg, u, s, 0, s.highest + 1, cs, verified, ns, {}, |cs|);
    assert cs[..|cs|] == cs;
    WindowDigests(u, s, 0, s.highest + 1, cs);
    forall j | 0 <= j < |cs| ensures Answer(cfg, ns[j], Msg(cs[j], verified[j])) != MissingParents {
      WindowAccepts(cfg, u, s, 0, s.highest + 1, cs, verified, ns, {}, j);
    }
  }

  // ---- Repeated requests ------------------------------------------------------------------------

  // The first round a requester asks for, given its highest round.
  function FromRound(localHighest: nat): nat {
    if localHighest == 0 then 0 else localHighest + 1
  }

  // The last round of the response.  The number of rounds asked for is unsigned: when the request
  // starts more than one past its end it wraps around, to more than any response holds.
  function ToRound(from: nat, last: nat, batchSize: nat): nat
    requires batchSize > 0 || from > 0
  {
    if last + 1 < from || last + 1 - from > batchSize then from + batchSize - 1 else last
  }

  // A response to a request that starts no later than one past its end holds at most the given
  // number of rounds, and all that were asked for if they fit.
  lemma WindowMeaning(from: nat, last: nat, batchSize: nat)
    requires batchSize > 0 && from <= last + 1
    ensures var to := ToRound(from, last, batchSize);
      && to <= last && to + 1 - from <= batchSize
      && (to == last <==> last + 1 - from <= batchSize) && (to < last ==> to + 1 - from == batchSize)
  {}

  // A requester behind its peer gains ground from one response exactly when it already has a
  // round above 0 or responses span at least two rounds: at highest round 0 it always asks
  // from round 0 again.
  lemma ResponseAdvancesIff(localHighest: nat, highest: nat, batchSize: nat)
    requires localHighest < highest && batchSize > 0
    ensures ToRound(FromRound(localHighest), highest, batchSize) > localHighest <==> localHighest > 0 || batchSize >= 2
  {}

  ghost predicate HasRound(s: DagState, r: nat) {
    exists d :: d in s.index && s.index[d].Round() == r
  }

  // Above every round a requester can stand at, the response holds a populated round.
  ghost predicate NoWideGap(s: DagState, batchSize: nat) {
    forall r: nat :: (r == 0 || HasRound(s, r)) && r < s.highest ==> Bridged(s, batchSize, r)
  }

  ghost predicate Bridged(s: DagState, batchSize: nat, r: nat) {
    exists r': nat :: r < r' < FromRound(r) + batchSize && HasRound(s, r')
  }

  // One request and the handling of its response.
  ghost predicate SyncOnce(cfg: Config, s: DagState, batchSize: nat, n: NodeState, n': NodeState)
    requires batchSize > 0
  {
    var from := FromRound(n.dag.highest);
    exists cs, verified, ns ::
      && Listing(s, from, ToRound(from, s.highest, batchSize) + 1, cs)
      && Receives(cfg, cs, verified, ns) && ns[0] == n && ns[|cs|] == n'
  }

  // What a requester holds of the peer agrees with it, and it asks for nothing past its cover.
  lemma StandsWithin(u: Graph, s: DagState, n: NodeState, cover: nat)
    requires Complete(u, s) && HoldsExactly(u, n, Below(s, cover))
    ensures FromRound(n.dag.highest) <= cover && n.dag.highest <= s.highest
    ensures n.dag.highest == 0 || HasRound(s, n.dag.highest)
    ensures forall d :: d in s.index && s.index[d].Round() < cover ==> s.index[d].Round() <= n.dag.highest
  {
    assert forall d :: d in n.dag.index ==> d in Below(s, cover);
    assert forall d :: d in n.dag.index ==> n.dag.index[d] == u[d] == s.index[d];
    forall d | d in s.index && s.index[d].Round() < cover ensures s.index[d].Round() <= n.dag.highest {
      assert d in Below(s, cover);
      assert d in n.dag.index.Keys;
    }
    if n.dag.highest > 0 {
      var d :| d in n.dag.index && n.dag.index[d].Round() == n.dag.highest;
      assert d in Below(s, cover);
    }
  }

  // One exchange extends the cover to the end of the response.
  lemma SyncOnceExtends(cfg: Config, u: Graph, s: DagState, batchSize: nat, n: NodeState, n': NodeState, cover: nat)
    returns (cover': nat)
    requires World(u) && Complete(u, s) && batchSize > 0
    requires cover <= s.highest + 1 && HoldsExactly(u, n, Below(s, cover)) && SyncOnce(cfg, s, batchSize, n, n')
    ensures var to := ToRound(FromRound(n.dag.highest), s.highest, batchSize) + 1;
      cover' == (if to > cover then to else cover) && cover' <= s.highest + 1 && HoldsExactly(u, n', Below(s, cover'))
  {
    StandsWithin(u, s, n, cover);
    var from := FromRound(n.dag.highest);
    var to := ToRound(from, s.highest, batchSize) + 1;
    cover' := if to > cover then to else cover;
    var cs, verified, ns :| Listing(s, from, to, cs) && Receives(cfg, cs, verified, ns) && ns[0] == n && ns[|cs|] == n';
    assert Below(s, from) <= Below(s, cover);
    WindowExtends(cfg, u, s, from, to, cs, verified, ns, Below(s, cover), |cs|);
    assert cs[..|cs|] == cs;
    WindowDigests(u, s, from, to, cs);
    JoinBelow(s, from, cover, to, Digests(cs));
  }

  lemma JoinBelow(s: DagState, from: nat, cover: nat, to: nat, window: set<Hash>)
    requires from <= cover && Below(s, from) + window == Below(s, to) && from <= to
    ensures Below(s, cover) + window == Below(s, if to > cover then to else cover)
  {
    assert Below(s, from) <= Below(s, cover);
    if to > cover {
      assert Below(s, cover) <= Below(s, to);
    } else {
      assert Below(s, to) <= Below(s, cover);
    }
  }

  // xs lists the states of a fresh node that keeps asking the same peer.
  ghost predicate Syncs(cfg: Config, s: DagState, batchSize: nat, xs: seq<NodeState>)
    requires batchSize > 0
  {
    && |xs| > 0 && xs[0] == NodeState(Empty(), map[])
    && forall i :: 0 <= i < |xs| - 1 ==> SyncOnce(cfg, s, batchSize, xs[i], xs[i + 1])
  }

  lemma {:induction false} SyncCovers(cfg: Config, u: Graph, s: DagState, batchSize: nat, xs: seq<NodeState>, k: nat)
    returns (cover: nat)
    requires World(u) && Complete(u, s) && batchSize > 0 && Syncs(cfg, s, batchSize, xs) && k < |xs|
    ensures cover <= s.highest + 1 && HoldsExactly(u, xs[k], Below(s, cover)) && (k > 0 ==> cover > 0)
    decreases k
  {
    BelowBounds(s);
    if k == 0 {
      cover := 0;
    } else {
      var before := SyncCovers(cfg, u, s, batchSize, xs, k - 1);
      assert SyncOnce(cfg, s, batchSize, xs[k - 1], xs[k - 1 + 1]);
      cover := SyncOnceExtends(cfg, u, s, batchSize, xs[k - 1], xs[k], before);
    }
  }

  // Standing at h, with everything below the cover, a node that has asked from h stands at h'.
  lemma RisesUnder(s: DagState, batchSize: nat, h: nat, h': nat, cover: nat)
    requires HighestBounds(s) && batchSize > 0 && NoWideGap(s, batchSize) && (h == 0 || HasRound(s, h))
      && h <= s.highest && h' <= s.highest
    requires cover > ToRound(FromRound(h), s.highest, batchSize)
    requires forall d :: d in s.index && s.index[d].Round() < cover ==> s.index[d].Round() <= h'
    ensures h < s.highest ==> h' > h
    ensures h == s.highest ==> h' == s.highest
  {
    if h < s.highest {
      assert Bridged(s, batchSize, h);
      var r: nat :| h < r < FromRound(h) + batchSize && HasRound(s, r);
      var d :| d in s.index && s.index[d].Round() == r;
      assert r <= s.highest && r < cover;
    } else if h > 0 {
      var d :| d in s.index && s.index[d].Round() == h;
    }
  }

  // Without a wide gap each exchange raises the requester's highest round until it is the peer's.
  lemma ExchangeRises(cfg: Config, u: Graph, s: DagState, batchSize: nat, n: NodeState, n': NodeState, cover: nat)
    requires World(u) && Complete(u, s) && batchSize > 0 && NoWideGap(s, batchSize) && cover <= s.highest + 1
    requires HoldsExactly(u, n, Below(s, cover)) && SyncOnce(cfg, s, batchSize, n, n')
    ensures n.dag.highest < s.highest ==> n'.dag.highest > n.dag.highest
    ensures n.dag.highest == s.highest ==> n'.dag.highest == s.highest
  {
    StandsWithin(u, s, n, cover);
    var cover' := SyncOnceExtends(cfg, u, s, batchSize, n, n', cover);
    StandsWithin(u, s, n', cover');
    RisesUnder(s, batchSize, n.dag.highest, n'.dag.highest, cover');
  }

  lemma {:induction false} RisesByStep(cfg: Config, u: Graph, s: DagState, batchSize: nat, xs: seq<NodeState>, k: nat)
    requires World(u) && Complete(u, s) && batchSize > 0 && NoWideGap(s, batchSize) && Syncs(cfg, s, batchSize, xs)
      && k < |xs|
    ensures xs[k].dag.highest >= (if k < s.highest then k else s.highest)
    decreases k
  {
    if k > 0 {
      RisesByStep(cfg, u, s, batchSize, xs, k - 1);
      var cover := SyncCovers(cfg, u, s, batchSize, xs, k - 1);
      StandsWithin(u, s, xs[k - 1], cover);
      assert SyncOnce(cfg, s, batchSize, xs[k - 1], xs[k - 1 + 1]);
      ExchangeRises(cfg, u, s, batchSize, xs[k - 1], xs[k], cover);
    }
  }

  // At a wide gap above r nothing past r is ever received.
  lemma {:induction false} StuckAt(cfg: Config, u: Graph, s: DagState, batchSize: nat, xs: seq<NodeState>, k: nat,
                                   r: nat)
    requires World(u) && Complete(u, s) && batchSize > 0 && Syncs(cfg, s, batchSize, xs) && k < |xs|
    requires r < s.highest && !Bridged(s, batchSize, r)
    ensures xs[k].dag.highest <= r
    decreases k
  {
    if k > 0 {
      StuckAt(cfg, u, s, batchSize, xs, k - 1, r);
      var n, n' := xs[k - 1], xs[k];
      var cover := SyncCovers(cfg, u, s, batchSize, xs, k - 1);
      StandsWithin(u, s, n, cover);
      assert SyncOnce(cfg, s, batchSize, xs[k - 1], xs[k - 1 + 1]);
      var cover' := SyncOnceExtends(cfg, u, s, batchSize, n, n', cover);
      StandsWithin(u, s, n', cover');
      if n'.dag.highest > n.dag.highest {
        HighestUnderCover(u, s, n', cover');
        assert n'.dag.highest < FromRound(r) + batchSize && HasRound(s, n'.dag.highest);
      }
    }
  }

  lemma HighestUnderCover(u: Graph, s: DagState, n: NodeState, cover: nat)
    requires Complete(u, s) && HoldsExactly(u, n, Below(s, cover)) && n.dag.highest > 0
    ensures n.dag.highest < cover
  {
    var d :| d in n.dag.index && n.dag.index[d].Round() == n.dag.highest;
    assert d in n.dag.index.Keys;
    assert d in Below(s, cover) && n.dag.index[d] == u[d] == s.index[d];
  }

  lemma FullWhenHighest(u: Graph, s: DagState, n: NodeState, cover: nat)
    requires Complete(u, s) && Tops(s) && HoldsExactly(u, n, Below(s, cover)) && cover > 0 && cover <= s.highest + 1
    ensures Exactly(u, n.dag.index, s.index.Keys) <==> n.dag.highest == s.highest
  {
    StandsWithin(u, s, n, cover);
    BelowBounds(s);
    if n.dag.highest == s.highest {
      if s.highest > 0 {
        HighestUnderCover(u, s, n, cover);
      }
      assert cover == s.highest + 1;
    }
  }

  // A fresh node that keeps asking an unchanging complete peer holds exactly the peer's DAG after
  // more responses than the peer has rounds if and only if no gap in the peer's rounds is wider
  // than a response.
  lemma RepeatedSyncConvergesIff(cfg: Config, u: Graph, s: DagState, batchSize: nat, xs: seq<NodeState>, k: nat)
    requires World(u) && Complete(u, s) && Tops(s) && batchSize > 0
    requires Syncs(cfg, s, batchSize, xs) && s.highest < k < |xs|
    ensures Exactly(u, xs[k].dag.index, s.index.Keys) <==> NoWideGap(s, batchSize)
    ensures xs[k].orphans == map[]
  {
    var cover := SyncCovers(cfg, u, s, batchSize, xs, k);
    StandsWithin(u, s, xs[k], cover);
    FullWhenHighest(u, s, xs[k], cover);
    if NoWideGap(s, batchSize) {
      RisesByStep(cfg, u, s, batchSize, xs, k);
    } else {
      var r: nat :| (r == 0 || HasRound(s, r)) && r < s.highest && !Bridged(s, batchSize, r);
      StuckAt(cfg, u, s, batchSize, xs, k, r);
    }
  }
}
