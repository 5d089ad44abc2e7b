// The certificate DAG (dag/dag.go): two views of the same certificates, a history cache
// with eviction and partial invalidation, and pruning.
module Dag {
  import opened Types
  import opened Lists
  import opened History
  import opened Ordering

  datatype Config = Config(maxHistoryDepth: int, maxHistoryCacheSize: int, hasStore: bool)

  datatype AddResult = Added | DuplicateHeader | MissingParents

  datatype DagState = DagState(
    rounds: map<nat, map<nat, Certificate>>,
    index: map<Hash, Certificate>,
    store: map<Hash, Certificate>,
    highest: nat,
    cache: map<Hash, seq<Certificate>>,
    keys: seq<Hash>)
  {
    // What GetCertificate can resolve: the index first, then the store.
    ghost function Known(): Graph { store + index }
  }

  ghost function Empty(): DagState { DagState(map[], map[], map[], 0, map[], []) }

  // ---- Specification of each operation ----------------------------------------------------

  ghost function Opened(rounds: map<nat, map<nat, Certificate>>, r: nat): map<nat, map<nat, Certificate>> {
    if r in rounds then rounds else rounds[r := map[]]
  }

  ghost function Placed(certs: map<nat, Certificate>, c: Certificate): map<nat, Certificate> {
    certs[c.Author() := c]
  }

  // A cached history that a certificate of round r could extend.
  ghost predicate Stale(h: seq<Certificate>, r: nat) {
    |h| > 0 && h[0].Round() > r
  }

  ghost function StaleKeys(cache: map<Hash, seq<Certificate>>, r: nat): set<Hash> {
    set d | d in cache && Stale(cache[d], r)
  }

  ghost function Saved(store: map<Hash, Certificate>, c: Certificate): map<Hash, Certificate> {
    if c.Digest() in store then store else store[c.Digest() := c]
  }

  ghost predicate SlotTaken(s: DagState, c: Certificate) {
    c.Round() in s.rounds && c.Author() in s.rounds[c.Round()]
  }

  ghost predicate ParentsKnown(s: DagState, c: Certificate) {
    c.Round() > 0 ==> c.Parents() <= s.Known().Keys
  }

  ghost function AddOutcome(s: DagState, c: Certificate): AddResult {
    if SlotTaken(s, c) then DuplicateHeader
    else if !ParentsKnown(s, c) then MissingParents
    else Added
  }

  // A rejected certificate still leaves its round open.
  ghost function AddSpec(cfg: Config, s: DagState, c: Certificate): DagState {
    var rounds := Opened(s.rounds, c.Round());
    if AddOutcome(s, c) != Added then s.(rounds := rounds)
    else
      var gone := StaleKeys(s.cache, c.Round());
      DagState(
        rounds[c.Round() := Placed(rounds[c.Round()], c)],
        s.index[c.Digest() := c],
        if cfg.hasStore then Saved(s.store, c) else s.store,
        if c.Round() > s.highest then c.Round() else s.highest,
        s.cache - gone,
        Without(s.keys, gone))
  }

  ghost function RoundDigests(certs: map<nat, Certificate>): set<Hash> {
    set a | a in certs :: certs[a].Digest()
  }

  ghost function PruneRoundSpec(s: DagState, r: nat): DagState {
    var gone := if r in s.rounds then RoundDigests(s.rounds[r]) else {};
    s.(rounds := s.rounds - {r}, index := s.index - gone, cache := map[], keys := [])
  }

  ghost function DigestsBefore(rounds: map<nat, map<nat, Certificate>>, r: nat): set<Hash> {
    set q, a | q in rounds && q < r && a in rounds[q] :: rounds[q][a].Digest()
  }

  ghost function PruneBeforeSpec(s: DagState, r: nat): DagState {
    s.(rounds := s.rounds - (set q | q in s.rounds && q < r),
       index := s.index - DigestsBefore(s.rounds, r), cache := map[], keys := [])
  }

  // How many keys go when the cache is full.
  ghost function EvictCount(cfg: Config, keys: seq<Hash>): nat {
    if cfg.maxHistoryCacheSize > 0 && |keys| >= cfg.maxHistoryCacheSize then
      if cfg.maxHistoryCacheSize / 10 < 1 then 1 else cfg.maxHistoryCacheSize / 10
    else 0
  }

  ghost function HistorySpec(cfg: Config, s: DagState, c: Certificate): (DagState, seq<Certificate>) {
    if c.Digest() in s.cache then (s, s.cache[c.Digest()])
    else
      var h := FreshHistory(s.Known(), c, cfg.maxHistoryDepth);
      var n := EvictCount(cfg, s.keys);
      (s.(cache := (s.cache - Elems(s.keys[..n]))[c.Digest() := h], keys := s.keys[n..] + [c.Digest()]), h)
  }

  // What GetCertificatesForRound sees: memory when the round is open there, else the store.
  ghost function RoundCerts(s: DagState, r: nat): set<Certificate> {
    if r in s.rounds then set a | a in s.rounds[r] :: s.rounds[r][a]
    else set d | d in s.store && s.store[d].Round() == r :: s.store[d]
  }

  ghost function RangeCerts(s: DagState, from: nat, to: nat): set<Certificate> {
    set r: nat, c | from <= r < to && c in RoundCerts(s, r) :: c
  }

  // ---- The two views agree ----------------------------------------------------------------

  ghost predicate Holds(rounds: map<nat, map<nat, Certificate>>, r: nat, a: nat, c: Certificate) {
    r in rounds && a in rounds[r] && rounds[r][a] == c
  }

  ghost predicate Agree(s: DagState) {
    && (forall r, a, c :: Holds(s.rounds, r, a, c) ==>
          c.Round() == r && c.Author() == a && c.Digest() in s.index && s.index[c.Digest()] == c)
    && (forall d :: d in s.index ==>
          s.index[d].Digest() == d && Holds(s.rounds, s.index[d].Round(), s.index[d].Author(), s.index[d]))
  }

  ghost predicate HighestBounds(s: DagState) {
    forall d :: d in s.index ==> s.index[d].Round() <= s.highest
  }

  lemma PlacedHolds(s: DagState, c: Certificate, r: nat, a: nat, x: Certificate)
    requires !SlotTaken(s, c)
    ensures var rounds := Opened(s.rounds, c.Round());
      Holds(rounds[c.Round() := Placed(rounds[c.Round()], c)], r, a, x) <==>
      Holds(s.rounds, r, a, x) || (r == c.Round() && a == c.Author() && x == c)
  {}

  // Adding keeps the views in agreement exactly when the digest is not already indexed:
  // the code checks the (round, author) slot but never whether the digest is taken.
  lemma AddKeepsAgreementIff(cfg: Config, s: DagState, c: Certificate)
    requires Agree(s) && AddOutcome(s, c) == Added
    ensures Agree(AddSpec(cfg, s, c)) <==> c.Digest() !in s.index
  {
    var s' := AddSpec(cfg, s, c);
    forall r, a, x
      ensures Holds(s'.rounds, r, a, x) <==> Holds(s.rounds, r, a, x) || (r == c.Round() && a == c.Author() && x == c)
    {
      PlacedHolds(s, c, r, a, x);
    }
    if c.Digest() in s.index {
      var prior := s.index[c.Digest()];
      assert Holds(s'.rounds, prior.Round(), prior.Author(), prior) && s'.index[prior.Digest()] != prior;
    }
  }

  // Two certificates of round 0 under one digest are both accepted, and then the views disagree.
  lemma SharedDigestBreaksAgreement(cfg: Config, a: Certificate, b: Certificate)
    requires a.Round() == 0 && b.Round() == 0 && a.Author() != b.Author() && a.Digest() == b.Digest()
    ensures var s := AddSpec(cfg, Empty(), a);
      AddOutcome(Empty(), a) == Added && AddOutcome(s, b) == Added && !Agree(AddSpec(cfg, s, b))
  {
    var s := AddSpec(cfg, Empty(), a);
    AddKeepsAgreementIff(cfg, Empty(), a);
    AddKeepsAgreementIff(cfg, s, b);
  }

  // A rejected certificate changes nothing that the views record.
  lemma RejectKeepsAgreement(cfg: Config, s: DagState, c: Certificate)
    requires Agree(s) && AddOutcome(s, c) != Added
    ensures Agree(AddSpec(cfg, s, c)) && AddSpec(cfg, s, c).index == s.index
  {
    assert forall r: nat, a: nat, x :: Holds(AddSpec(cfg, s, c).rounds, r, a, x) <==> Holds(s.rounds, r, a, x);
  }

  // Pruning removes exactly the certificates of the pruned rounds, from both views.
  lemma PruneBeforeExact(s: DagState, r: nat)
    requires Agree(s)
    ensures var s' := PruneBeforeSpec(s, r);
      && Agree(s')
      && s'.index == (map d | d in s.index && s.index[d].Round() >= r :: s.index[d])
      && s'.rounds == (map q | q in s.rounds && q >= r :: s.rounds[q])
  {
    forall d | d in s.index ensures d in DigestsBefore(s.rounds, r) <==> s.index[d].Round() < r {
      var c := s.index[d];
      assert Holds(s.rounds, c.Round(), c.Author(), c);
      if d in DigestsBefore(s.rounds, r) {
        var q, a :| q in s.rounds && q < r && a in s.rounds[q] && s.rounds[q][a].Digest() == d;
        assert Holds(s.rounds, q, a, s.rounds[q][a]);
      }
    }
    assert forall q: nat, a: nat, c :: Holds(PruneBeforeSpec(s, r).rounds, q, a, c) <==>
      Holds(s.rounds, q, a, c) && q >= r;
  }

  lemma RoundDigestsExact(s: DagState, r: nat, d: Hash)
    requires Agree(s) && d in s.index
    ensures (r in s.rounds && d in RoundDigests(s.rounds[r])) <==> s.index[d].Round() == r
  {
    var c := s.index[d];
    assert Holds(s.rounds, c.Round(), c.Author(), c);
    if r in s.rounds && d in RoundDigests(s.rounds[r]) {
      var a :| a in s.rounds[r] && s.rounds[r][a].Digest() == d;
      assert Holds(s.rounds, r, a, s.rounds[r][a]);
    }
  }

  lemma PruneRoundExact(s: DagState, r: nat)
    requires Agree(s)
    ensures var s' := PruneRoundSpec(s, r);
      && Agree(s')
      && s'.index == (map d | d in s.index && s.index[d].Round() != r :: s.index[d])
      && s'.rounds == (map q | q in s.rounds && q != r :: s.rounds[q])
  {
    forall d | d in s.index ensures (r in s.rounds && d in RoundDigests(s.rounds[r])) <==> s.index[d].Round() == r {
      RoundDigestsExact(s, r, d);
    }
    assert forall q: nat, a: nat, c :: Holds(PruneRoundSpec(s, r).rounds, q, a, c) <==>
      Holds(s.rounds, q, a, c) && q != r;
  }

  // ---- Hypotheses about the certificates of a run -------------------------------------------

  // The certificates that ever appear, by digest: a digest identifies one certificate, and
  // a certificate cites only certificates of lower rounds.  The code relies on both.
  ghost predicate Universe(u: Graph) {
    && Keyed(u)
    && forall x, y :: x in u && y in u && y in u[x].Parents() ==> u[y].Round() < u[x].Round()
  }

  ghost predicate Of(u: Graph, c: Certificate) {
    c.Digest() in u && u[c.Digest()] == c
  }

  // Every entry of g is one of u's certificates.
  ghost predicate Drawn(u: Graph, g: Graph) {
    forall d :: d in g ==> d in u && u[d] == g[d]
  }

  // ---- The invariant of every run -----------------------------------------------------------

  ghost predicate CacheExact(cfg: Config, u: Graph, s: DagState) {
    forall d :: d in s.cache ==> d in u && s.cache[d] == FreshHistory(s.Known(), u[d], cfg.maxHistoryDepth)
  }

  ghost predicate KeysEnumerate(cfg: Config, s: DagState) {
    && NoDup(s.keys) && Elems(s.keys) == s.cache.Keys
    && (cfg.maxHistoryCacheSize > 0 ==> |s.keys| <= cfg.maxHistoryCacheSize)
  }

  ghost predicate Inv(cfg: Config, u: Graph, s: DagState) {
    && Agree(s) && HighestBounds(s)
    && Drawn(u, s.index) && Drawn(u, s.store)
    && (cfg.hasStore ==> s.index.Keys <= s.store.Keys) && (!cfg.hasStore ==> s.store == map[])
    && CacheExact(cfg, u, s) && KeysEnumerate(cfg, s)
  }

  // ---- Runs ---------------------------------------------------------------------------------

  // CollectBefore is garbage collection's step: prune memory, then delete the same rounds
  // from the store.
  datatype Op = Add(c: Certificate) | Query(c: Certificate) | PruneRound(r: nat) | PruneBefore(r: nat)
    | CollectBefore(r: nat)

  ghost function StoreFrom(store: map<Hash, Certificate>, r: nat): map<Hash, Certificate> {
    map d | d in store && store[d].Round() >= r :: store[d]
  }

  ghost function Step(cfg: Config, s: DagState, op: Op): DagState {
    match op
    case Add(c) => AddSpec(cfg, s, c)
    case Query(c) => HistorySpec(cfg, s, c).0
    case PruneRound(r) => PruneRoundSpec(s, r)
    case PruneBefore(r) => PruneBeforeSpec(s, r)
    case CollectBefore(r) => var p := PruneBeforeSpec(s, r); p.(store := StoreFrom(p.store, r))
  }

  ghost function Run(cfg: Config, ops: seq<Op>): DagState {
    if ops == [] then Empty() else Step(cfg, Run(cfg, ops[..|ops| - 1]), ops[|ops| - 1])
  }

  ghost predicate Legal(u: Graph, ops: seq<Op>) {
    forall op :: op in ops ==> (op.Add? || op.Query? ==> Of(u, op.c))
  }

  // Under the hypotheses, an accepted certificate's digest is new to the index.
  lemma AddedIsNew(cfg: Config, u: Graph, s: DagState, c: Certificate)
    requires Inv(cfg, u, s) && Of(u, c) && AddOutcome(s, c) == Added
    ensures c.Digest() !in s.index
  {}

  // A certificate no nearer to the tip than c cannot reach c, so c does not change its history.
  lemma {:induction false} ExpandOneUnaffected(u: Graph, g: Graph, c: Certificate, x: Certificate, refs: seq<CertRef>,
                                               visited: set<Hash>, queue: seq<Certificate>)
    requires Universe(u) && Drawn(u, g) && Of(u, c) && Of(u, x) && x.Round() <= c.Round()
    requires forall ref :: ref in refs ==> ref in x.header.parents
    requires forall y :: y in queue ==> Of(u, y) && y.Round() <= c.Round()
    ensures ExpandOne(g[c.Digest() := c], refs, visited, queue) == ExpandOne(g, refs, visited, queue)
    ensures forall y :: y in ExpandOne(g, refs, visited, queue).1 ==> Of(u, y) && y.Round() <= c.Round()
    decreases |refs|
  {
    if refs != [] {
      var d := refs[0].digest;
      assert refs[0] in refs;
      assert d in x.Parents();
      if d in visited {
        ExpandOneUnaffected(u, g, c, x, refs[1..], visited, queue);
      } else {
        assert d != c.Digest();
        ExpandOneUnaffected(u, g, c, x, refs[1..], visited + {d}, if d in g then queue + [g[d]] else queue);
      }
    }
  }

  lemma {:induction false} ExpandLevelUnaffected(u: Graph, g: Graph, c: Certificate, level: seq<Certificate>,
                                                 visited: set<Hash>, queue: seq<Certificate>)
    requires Universe(u) && Drawn(u, g) && Of(u, c)
    requires forall y :: y in level || y in queue ==> Of(u, y) && y.Round() <= c.Round()
    ensures ExpandLevel(g[c.Digest() := c], level, visited, queue) == ExpandLevel(g, level, visited, queue)
    ensures forall y :: y in ExpandLevel(g, level, visited, queue).1 ==> Of(u, y) && y.Round() <= c.Round()
    decreases |level|
  {
    if level != [] {
      var (v, q) := ExpandOne(g, level[0].header.parents, visited, queue);
      ExpandOneUnaffected(u, g, c, level[0], level[0].header.parents, visited, queue);
      ExpandLevelUnaffected(u, g, c, level[1..], v, q);
    }
  }

  lemma {:induction false} WalkUnaffected(u: Graph, g: Graph, c: Certificate, level: seq<Certificate>,
                                          visited: set<Hash>, depth: nat)
    requires Universe(u) && Drawn(u, g) && Of(u, c)
    requires forall y :: y in level ==> Of(u, y) && y.Round() <= c.Round()
    ensures Walk(g[c.Digest() := c], level, visited, depth) == Walk(g, level, visited, depth)
    decreases depth
  {
    if level != [] && depth > 0 {
      var (v, q) := ExpandLevel(g, level, visited, []);
      ExpandLevelUnaffected(u, g, c, level, visited, []);
      WalkUnaffected(u, g, c, q, v, depth - 1);
    }
  }

  // The history of a certificate no higher than c does not depend on c.
  lemma HistoryUnaffected(u: Graph, g: Graph, c: Certificate, x: Certificate, maxDepth: int)
    requires Universe(u) && Drawn(u, g) && Of(u, c) && Of(u, x)
    requires !Stale(FreshHistory(g, x, maxDepth), c.Round())
    ensures FreshHistory(g[c.Digest() := c], x, maxDepth) == FreshHistory(g, x, maxDepth)
  {
    if maxDepth > 0 {
      assert FreshHistory(g, x, maxDepth)[0] == x;
      WalkUnaffected(u, g, c, [x], {x.Digest()}, maxDepth);
    }
  }

  lemma KnownAfterAdd(cfg: Config, s: DagState, c: Certificate)
    requires AddOutcome(s, c) == Added
    ensures AddSpec(cfg, s, c).Known() == s.Known()[c.Digest() := c]
  {}

  // The partial invalidation of AddCertificate drops every entry the new certificate changes.
  lemma AddKeepsCacheExact(cfg: Config, u: Graph, s: DagState, c: Certificate)
    requires Universe(u) && CacheExact(cfg, u, s) && Drawn(u, s.Known())
    requires Of(u, c) && AddOutcome(s, c) == Added
    ensures CacheExact(cfg, u, AddSpec(cfg, s, c))
  {
    var s', g := AddSpec(cfg, s, c), s.Known();
    KnownAfterAdd(cfg, s, c);
    forall d | d in s.cache && !Stale(s.cache[d], c.Round())
      ensures s.cache[d] == FreshHistory(g[c.Digest() := c], u[d], cfg.maxHistoryDepth)
    {
      HistoryUnaffected(u, g, c, u[d], cfg.maxHistoryDepth);
    }
    assert forall d :: d in s'.cache ==> d in s.cache && !Stale(s.cache[d], c.Round()) && s'.cache[d] == s.cache[d];
  }

  lemma AddKeepsInv(cfg: Config, u: Graph, s: DagState, c: Certificate)
    requires Universe(u) && Inv(cfg, u, s) && Of(u, c)
    ensures Inv(cfg, u, AddSpec(cfg, s, c))
  {
    var s' := AddSpec(cfg, s, c);
    if AddOutcome(s, c) == Added {
      AddedIsNew(cfg, u, s, c);
      AddKeepsAgreementIff(cfg, s, c);
      AddKeepsCacheExact(cfg, u, s, c);
      WithoutElems(s.keys, StaleKeys(s.cache, c.Round()));
    } else {
      RejectKeepsAgreement(cfg, s, c);
    }
  }

  lemma QueryKeepsInv(cfg: Config, u: Graph, s: DagState, c: Certificate)
    requires Inv(cfg, u, s) && Of(u, c)
    ensures Inv(cfg, u, HistorySpec(cfg, s, c).0)
  {
    if c.Digest() !in s.cache {
      var n := EvictCount(cfg, s.keys);
      KeysShift(s.keys, n, c.Digest());
    }
  }

  // Dropping the oldest keys and adding a new one.
  lemma KeysShift(keys: seq<Hash>, n: nat, d: Hash)
    requires NoDup(keys) && n <= |keys| && d !in Elems(keys)
    ensures NoDup(keys[n..] + [d]) && Elems(keys[n..] + [d]) == Elems(keys) - Elems(keys[..n]) + {d}
  {
    assert keys == keys[..n] + keys[n..];
    ElemsAppend(keys[..n], keys[n..]);
    ElemsAppend(keys[n..], [d]);
    assert Elems(keys[..n]) !! Elems(keys[n..]);
    assert forall i :: 0 <= i < |keys| ==> keys[i] in Elems(keys);
  }

  lemma PruneRoundKeepsInv(cfg: Config, u: Graph, s: DagState, r: nat)
    requires Inv(cfg, u, s)
    ensures Inv(cfg, u, Step(cfg, s, PruneRound(r)))
  {
    PruneRoundExact(s, r);
  }

  lemma PruneBeforeKeepsInv(cfg: Config, u: Graph, s: DagState, r: nat)
    requires Inv(cfg, u, s)
    ensures Inv(cfg, u, Step(cfg, s, PruneBefore(r)))
  {
    PruneBeforeExact(s, r);
  }

  lemma CollectKeepsInv(cfg: Config, u: Graph, s: DagState, r: nat)
    requires Inv(cfg, u, s)
    ensures Inv(cfg, u, Step(cfg, s, CollectBefore(r)))
  {
    PruneBeforeExact(s, r);
    var p := PruneBeforeSpec(s, r);
    assert forall d :: d in p.index && d in p.store ==> p.store[d] == u[d] == p.index[d];
  }

  lemma {:induction false} RunKeepsInv(cfg: Config, u: Graph, ops: seq<Op>)
    requires Universe(u) && Legal(u, ops)
    ensures Inv(cfg, u, Run(cfg, ops))
  {
    if ops != [] {
      var before, op := ops[..|ops| - 1], ops[|ops| - 1];
      RunKeepsInv(cfg, u, before);
      match op
      case Add(c) => AddKeepsInv(cfg, u, Run(cfg, before), c);
      case Query(c) => QueryKeepsInv(cfg, u, Run(cfg, before), c);
      case PruneRound(r) => PruneRoundKeepsInv(cfg, u, Run(cfg, before), r);
      case PruneBefore(r) => PruneBeforeKeepsInv(cfg, u, Run(cfg, before), r);
      case CollectBefore(r) => CollectKeepsInv(cfg, u, Run(cfg, before), r);
    }
  }

  // After any run of adds, prunes, collections and queries, a query answers with exactly the
  // list a fresh traversal would return, cached or not.
  lemma CacheIsTransparent(cfg: Config, u: Graph, ops: seq<Op>, c: Certificate)
    requires Universe(u) && Legal(u, ops) && Of(u, c)
    ensures var s := Run(cfg, ops);
      HistorySpec(cfg, s, c).1 == FreshHistory(s.Known(), c, cfg.maxHistoryDepth)
  {
    RunKeepsInv(cfg, u, ops);
  }

  // In every run an accepted certificate drops exactly the cached histories of certificates of higher
  // rounds.
  lemma CachedSurvivesIff(cfg: Config, u: Graph, ops: seq<Op>, c: Certificate, d: Hash)
    requires Universe(u) && Legal(u, ops) && Of(u, c) && cfg.maxHistoryDepth > 0
    requires d in Run(cfg, ops).cache && AddOutcome(Run(cfg, ops), c) == Added
    ensures d in u && (d in AddSpec(cfg, Run(cfg, ops), c).cache <==> u[d].Round() <= c.Round())
  {
    RunKeepsInv(cfg, u, ops);
    var s := Run(cfg, ops);
    assert s.cache[d][0] == u[d];
  }

  // In every run a query that is not answered from the cache keeps all lists while there is room, and
  // otherwise drops the oldest tenth, but at least one.
  lemma QueryEvicts(cfg: Config, u: Graph, ops: seq<Op>, c: Certificate) returns (n: nat)
    requires Universe(u) && Legal(u, ops) && Of(u, c) && c.Digest() !in Run(cfg, ops).cache
    ensures var s, s' := Run(cfg, ops), HistorySpec(cfg, Run(cfg, ops), c).0;
      && n <= |s.keys| && s'.keys == s.keys[n..] + [c.Digest()] && s'.cache.Keys == Elems(s'.keys)
      && (n == 0 <==> cfg.maxHistoryCacheSize <= 0 || |s.keys| < cfg.maxHistoryCacheSize)
      && (n > 1 ==> 10 * n <= cfg.maxHistoryCacheSize)
      && (n > 0 ==> cfg.maxHistoryCacheSize < 10 * n + 10)
  {
    var s := Run(cfg, ops);
    RunKeepsInv(cfg, u, ops);
    QueryKeepsInv(cfg, u, s, c);
    n := EvictCount(cfg, s.keys);
  }

  // ---- The order of acceptance --------------------------------------------------------------

  ghost function Adds(cfg: Config, cs: seq<Certificate>): DagState {
    if cs == [] then Empty() else AddSpec(cfg, Adds(cfg, cs[..|cs| - 1]), cs[|cs| - 1])
  }

  // The certificates a run of adds accepts, in the order it accepts them.
  ghost function Accepted(cfg: Config, cs: seq<Certificate>): seq<Certificate> {
    if cs == [] then []
    else
      var before := cs[..|cs| - 1];
      Accepted(cfg, before) + (if AddOutcome(Adds(cfg, before), cs[|cs| - 1]) == Added then [cs[|cs| - 1]] else [])
  }

  // Every accepted certificate above round 0 cites only certificates accepted before it.
  ghost predicate ParentsEarlier(order: seq<Certificate>) {
    forall i, p :: 0 <= i < |order| && order[i].Round() > 0 && p in order[i].Parents() ==> p in Digests(order[..i])
  }

  lemma ParentsEarlierSnoc(order: seq<Certificate>, c: Certificate)
    requires ParentsEarlier(order) && (c.Round() > 0 ==> c.Parents() <= Digests(order))
    ensures ParentsEarlier(order + [c]) && Digests(order + [c]) == Digests(order) + {c.Digest()}
  {
    var order' := order + [c];
    DigestsAppend(order, [c]);
    assert Digests([c]) == {c.Digest()};
    forall i, p | 0 <= i < |order'| && order'[i].Round() > 0 && p in order'[i].Parents()
      ensures p in Digests(order'[..i])
    {
      assert order'[..i] == order[..i];
      assert order[..|order|] == order;
    }
  }

  lemma AddGrowsKeys(cfg: Config, s: DagState, c: Certificate)
    ensures var s', gain := AddSpec(cfg, s, c), if AddOutcome(s, c) == Added then {c.Digest()} else {};
      && s'.index.Keys == s.index.Keys + gain
      && s'.store.Keys == if cfg.hasStore then s.store.Keys + gain else s.store.Keys
  {}

  // When only the DAG writes the store and nothing is pruned, every certificate above round 0
  // was accepted after all it cites, and the index holds exactly the accepted digests.
  lemma {:induction false} InsertionRanksParents(cfg: Config, cs: seq<Certificate>)
    ensures ParentsEarlier(Accepted(cfg, cs))
    ensures Adds(cfg, cs).index.Keys == Digests(Accepted(cfg, cs))
    ensures Adds(cfg, cs).store.Keys == if cfg.hasStore then Adds(cfg, cs).index.Keys else {}
  {
    if cs == [] {
      assert Digests([]) == {};
    } else {
      var before, c := cs[..|cs| - 1], cs[|cs| - 1];
      var s, order := Adds(cfg, before), Accepted(cfg, before);
      InsertionRanksParents(cfg, before);
      AddGrowsKeys(cfg, s, c);
      if AddOutcome(s, c) == Added {
        assert s.Known().Keys == s.index.Keys;
        ParentsEarlierSnoc(order, c);
      } else {
        assert order + [] == order;
      }
    }
  }

  // ---- What the range queries see -----------------------------------------------------------

  lemma RoundCertsRound(s: DagState, r: nat, c: Certificate)
    requires Agree(s) && c in RoundCerts(s, r)
    ensures c.Round() == r
  {
    if r in s.rounds {
      var a :| a in s.rounds[r] && s.rounds[r][a] == c;
      assert Holds(s.rounds, r, a, c);
    }
  }

  // The stored certificates of the range whose round is not open in memory.
  ghost function Reloaded(s: DagState, from: nat, to: nat): set<Certificate> {
    set d | d in s.store && from <= s.store[d].Round() < to && s.store[d].Round() !in s.rounds :: s.store[d]
  }

  ghost function IndexedIn(s: DagState, from: nat, to: nat): set<Certificate> {
    set d | d in s.index && from <= s.index[d].Round() < to :: s.index[d]
  }

  // The range query sees exactly the indexed certificates of the range and, for rounds that are
  // not open in memory, the stored ones.
  lemma RangeCertsAre(s: DagState, from: nat, to: nat)
    requires Agree(s)
    ensures RangeCerts(s, from, to) == IndexedIn(s, from, to) + Reloaded(s, from, to)
  {
    forall c | c in RangeCerts(s, from, to) ensures c in IndexedIn(s, from, to) + Reloaded(s, from, to) {
      var r: nat :| from <= r < to && c in RoundCerts(s, r);
      RoundCertsRound(s, r, c);
      if r in s.rounds {
        var a :| a in s.rounds[r] && s.rounds[r][a] == c;
        assert Holds(s.rounds, r, a, c);
      }
    }
    forall d | d in s.index && from <= s.index[d].Round() < to ensures s.index[d] in RangeCerts(s, from, to) {
      assert Holds(s.rounds, s.index[d].Round(), s.index[d].Author(), s.index[d]);
      assert s.index[d] in RoundCerts(s, s.index[d].Round());
    }
    forall c | c in Reloaded(s, from, to) ensures c in RangeCerts(s, from, to) {
      assert c in RoundCerts(s, c.Round());
    }
  }

  // A refused certificate opens its round, and with that hides the stored certificates of a round
  // that was closed in memory.
  lemma RefusalHidesStored(cfg: Config, s: DagState, c: Certificate)
    requires AddOutcome(s, c) != Added && c.Round() !in s.rounds
    ensures RoundCerts(AddSpec(cfg, s, c), c.Round()) == {}
    ensures RoundCerts(s, c.Round()) == set d | d in s.store && s.store[d].Round() == c.Round() :: s.store[d]
    ensures forall r: nat :: r != c.Round() ==> RoundCerts(AddSpec(cfg, s, c), r) == RoundCerts(s, r)
  {
    assert AddSpec(cfg, s, c).rounds[c.Round()] == map[];
  }

  // So it sees just the index exactly when the store holds nothing of a closed round in the range;
  // then there is one certificate per round and author.
  lemma RangeCertsAreIndexed(s: DagState, from: nat, to: nat)
    requires Agree(s)
    ensures RangeCerts(s, from, to) == IndexedIn(s, from, to) <==> Reloaded(s, from, to) == {}
    ensures DistinctSlots(IndexedIn(s, from, to))
  {
    RangeCertsAre(s, from, to);
    forall c | c in IndexedIn(s, from, to) ensures Holds(s.rounds, c.Round(), c.Author(), c) {}
    forall c | c in Reloaded(s, from, to) ensures c !in IndexedIn(s, from, to) {
      assert c.Round() !in s.rounds;
    }
    if RangeCerts(s, from, to) == IndexedIn(s, from, to) {
      assert forall c :: c !in Reloaded(s, from, to);
    }
  }
}
