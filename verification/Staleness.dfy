// The history cache when the primary writes to the store the DAG reads (dag/dag.go,
// primary/primary.go, looseberry.go): exactly when a query answers with an old list.
module Staleness {
  import opened Types
  import opened Lists
  import opened History
  import opened Dag
  import opened Orphans

  // An operation on the DAG, or the primary storing a certificate it verified.
  datatype Event = Own(op: Op) | Write(c: Certificate)

  ghost function Next(cfg: Config, s: DagState, e: Event): DagState {
    match e
    case Own(op) => Step(cfg, s, op)
    case Write(c) => PrimarySaves(cfg, s, Msg(c, true))
  }

  ghost function After(cfg: Config, es: seq<Event>): DagState {
    if es == [] then Empty() else Next(cfg, After(cfg, es[..|es| - 1]), es[|es| - 1])
  }

  ghost predicate Allowed(u: Graph, e: Event) {
    match e
    case Own(op) => op.Add? || op.Query? ==> Of(u, op.c)
    case Write(c) => Of(u, c)
  }

  ghost predicate AllAllowed(u: Graph, es: seq<Event>) {
    forall i :: 0 <= i < |es| ==> Allowed(u, es[i])
  }

  ghost predicate InUniverse(u: Graph, s: DagState) { Drawn(u, s.index) && Drawn(u, s.store) }

  lemma AddInUniverse(cfg: Config, u: Graph, s: DagState, c: Certificate)
    requires InUniverse(u, s) && Of(u, c)
    ensures InUniverse(u, AddSpec(cfg, s, c))
  {}

  lemma NextInUniverse(cfg: Config, u: Graph, s: DagState, e: Event)
    requires InUniverse(u, s) && Allowed(u, e)
    ensures InUniverse(u, Next(cfg, s, e))
  {
    if e.Own? && e.op.Add? {
      AddInUniverse(cfg, u, s, e.op.c);
    }
  }

  lemma {:induction false} AfterInUniverse(cfg: Config, u: Graph, es: seq<Event>)
    requires AllAllowed(u, es)
    ensures InUniverse(u, After(cfg, es)) && Drawn(u, After(cfg, es).Known())
    decreases |es|
  {
    if es != [] {
      AfterInUniverse(cfg, u, es[..|es| - 1]);
      NextInUniverse(cfg, u, After(cfg, es[..|es| - 1]), es[|es| - 1]);
    }
  }

  // ---- The conditions ---------------------------------------------------------------------------------

  // The list for x has been cached since query i.
  ghost predicate CachedSince(cfg: Config, es: seq<Event>, i: nat, x: Certificate) {
    && i < |es| && es[i] == Own(Query(x)) && x.Digest() !in After(cfg, es[..i]).cache
    && forall k :: i < k <= |es| ==> x.Digest() in After(cfg, es[..k]).cache
  }

  // In state s, storing c makes a digest resolvable that x's history cites one level short of the
  // limit.
  ghost predicate Extends(cfg: Config, s: DagState, c: Certificate, x: Certificate) {
    && cfg.hasStore && c.Digest() !in s.Known() && c.Digest() != x.Digest()
    && exists y :: y in FreshHistory(s.Known(), x, cfg.maxHistoryDepth - 1) && c.Digest() in y.Parents()
  }

  ghost predicate ExtendsAt(cfg: Config, es: seq<Event>, j: nat, x: Certificate)
    requires j < |es|
  {
    es[j].Write? && Extends(cfg, After(cfg, es[..j]), es[j].c, x)
  }

  ghost function Fresh(cfg: Config, s: DagState, x: Certificate): seq<Certificate> {
    FreshHistory(s.Known(), x, cfg.maxHistoryDepth)
  }

  // The cached list misses some certificate of the fresh one.
  ghost predicate Lacks(cached: seq<Certificate>, now: seq<Certificate>) {
    exists d :: d in Digests(now) && d !in Digests(cached)
  }

  // ---- One event ----------------------------------------------------------------------------------------

  lemma WriteKnown(cfg: Config, u: Graph, s: DagState, c: Certificate)
    requires InUniverse(u, s) && Of(u, c)
    ensures Next(cfg, s, Write(c)).Known() ==
      if cfg.hasStore && c.Digest() !in s.Known() then s.Known()[c.Digest() := c] else s.Known()
  {}

  lemma HistoryStart(g: Graph, x: Certificate, maxDepth: int)
    requires maxDepth > 0
    ensures |FreshHistory(g, x, maxDepth)| > 0 && FreshHistory(g, x, maxDepth)[0] == x
  {}

  // Resolving more digests only adds to a history.
  lemma HistoryGrows(g: Graph, c: Certificate, x: Certificate, maxDepth: int)
    requires Keyed(g) && c.Digest() !in g && c.Digest() != x.Digest() && maxDepth > 0
    ensures Digests(FreshHistory(g, x, maxDepth)) <= Digests(FreshHistory(g[c.Digest() := c], x, maxDepth))
  {
    var graph, root := g[x.Digest() := x], x.Digest();
    var g' := g[c.Digest() := c];
    HistoryDigests(g, graph, x, maxDepth);
    assert graph[c.Digest() := c] == g'[root := x];
    HistoryDigests(g', graph[c.Digest() := c], x, maxDepth);
    WithinGrows(graph, c, root, maxDepth - 1);
  }

  // A write that extends the history leaves the cached list short of the fresh one; any other leaves
  // the fresh one as it was.
  lemma WriteEffect(cfg: Config, u: Graph, s: DagState, c: Certificate, x: Certificate)
    requires Universe(u) && InUniverse(u, s) && Drawn(u, s.Known()) && Of(u, c) && Of(u, x)
    ensures var s' := Next(cfg, s, Write(c));
      if Extends(cfg, s, c, x) then
        Digests(Fresh(cfg, s, x)) <= Digests(Fresh(cfg, s', x)) && Lacks(Fresh(cfg, s, x), Fresh(cfg, s', x))
      else Fresh(cfg, s', x) == Fresh(cfg, s, x)
  {
    var g, m := s.Known(), cfg.maxHistoryDepth;
    WriteKnown(cfg, u, s, c);
    if cfg.hasStore && c.Digest() !in g && m > 0 {
      if c.Digest() == x.Digest() {
        HistoryStart(g, x, m);
        HistoryUnaffected(u, g, c, x, m);
      } else {
        NewDigestChangesHistoryIff(g, c, x, m);
        if Extends(cfg, s, c, x) {
          var y :| y in FreshHistory(g, x, m - 1) && c.Digest() in y.Parents();
          CitedDigestAppears(g, c, x, y, m);
          HistoryGrows(g, c, x, m);
        }
      }
    }
  }

  // An add that leaves the list in the cache leaves the fresh one as it was.
  lemma AddEffect(cfg: Config, u: Graph, s: DagState, c: Certificate, x: Certificate)
    requires Universe(u) && Drawn(u, s.Known()) && Of(u, c) && Of(u, x)
    requires x.Digest() in s.cache && x.Digest() in AddSpec(cfg, s, c).cache
    requires cfg.maxHistoryDepth > 0 ==> |s.cache[x.Digest()]| > 0 && s.cache[x.Digest()][0] == x
    ensures Fresh(cfg, AddSpec(cfg, s, c), x) == Fresh(cfg, s, x)
      && AddSpec(cfg, s, c).cache[x.Digest()] == s.cache[x.Digest()]
  {
    if AddOutcome(s, c) == Added {
      KnownAfterAdd(cfg, s, c);
      assert !Stale(s.cache[x.Digest()], c.Round());
      if cfg.maxHistoryDepth > 0 {
        HistoryStart(s.Known(), x, cfg.maxHistoryDepth);
        HistoryUnaffected(u, s.Known(), c, x, cfg.maxHistoryDepth);
      }
    }
  }

  // Any event of the DAG's own that leaves the list in the cache leaves both as they were.
  lemma OwnEffect(cfg: Config, u: Graph, s: DagState, op: Op, x: Certificate)
    requires Universe(u) && Drawn(u, s.Known()) && Allowed(u, Own(op)) && Of(u, x)
    requires x.Digest() in s.cache && x.Digest() in Step(cfg, s, op).cache
    requires cfg.maxHistoryDepth > 0 ==> |s.cache[x.Digest()]| > 0 && s.cache[x.Digest()][0] == x
    ensures Fresh(cfg, Step(cfg, s, op), x) == Fresh(cfg, s, x)
      && Step(cfg, s, op).cache[x.Digest()] == s.cache[x.Digest()]
  {
    if op.Add? {
      AddEffect(cfg, u, s, op.c, x);
    }
  }

  // ---- Runs -----------------------------------------------------------------------------------------------

  // What holds of a cached list: it starts with its certificate, and it is the fresh one, or misses
  // something of it, as no write or some write has extended the history since it was cached.
  ghost predicate Told(cfg: Config, es: seq<Event>, i: nat, x: Certificate) {
    var s := After(cfg, es);
    && CachedSince(cfg, es, i, x) && x.Digest() in s.cache
    && (cfg.maxHistoryDepth > 0 ==> |s.cache[x.Digest()]| > 0 && s.cache[x.Digest()][0] == x)
    && if exists j :: i < j < |es| && ExtendsAt(cfg, es, j, x) then Lacks(s.cache[x.Digest()], Fresh(cfg, s, x))
       else s.cache[x.Digest()] == Fresh(cfg, s, x)
  }

  lemma PrefixOf(es: seq<Event>, e: Event, k: nat)
    requires k <= |es|
    ensures (es + [e])[..k] == es[..k]
  {}

  lemma CachedSnoc(cfg: Config, es: seq<Event>, e: Event, i: nat, x: Certificate)
    requires CachedSince(cfg, es, i, x) && x.Digest() in After(cfg, es + [e]).cache
    ensures CachedSince(cfg, es + [e], i, x)
  {
    PrefixOf(es, e, i);
    forall k | i < k <= |es + [e]| ensures x.Digest() in After(cfg, (es + [e])[..k]).cache {
      if k <= |es| {
        PrefixOf(es, e, k);
      } else {
        assert (es + [e])[..k] == es + [e];
      }
    }
  }

  lemma ExtendsSnoc(cfg: Config, es: seq<Event>, e: Event, i: nat, x: Certificate)
    requires i < |es|
    ensures (exists j :: i < j < |es + [e]| && ExtendsAt(cfg, es + [e], j, x)) <==>
      (exists j :: i < j < |es| && ExtendsAt(cfg, es, j, x)) || (e.Write? && Extends(cfg, After(cfg, es), e.c, x))
  {
    var all := es + [e];
    PrefixOf(es, e, |es|);
    assert es[..|es|] == es;
    forall j | i < j < |es| ensures ExtendsAt(cfg, all, j, x) <==> ExtendsAt(cfg, es, j, x) {
      PrefixOf(es, e, j);
    }
    if j :| i < j < |all| && ExtendsAt(cfg, all, j, x) {
      assert j < |es| ==> ExtendsAt(cfg, es, j, x);
    }
    if j :| i < j < |es| && ExtendsAt(cfg, es, j, x) {
      assert ExtendsAt(cfg, all, j, x);
    }
    if e.Write? && Extends(cfg, After(cfg, es), e.c, x) {
      assert ExtendsAt(cfg, all, |es|, x);
    }
  }

  lemma ToldStep(cfg: Config, u: Graph, es: seq<Event>, e: Event, i: nat, x: Certificate)
    requires Universe(u) && AllAllowed(u, es) && Allowed(u, e) && Of(u, x)
    requires Told(cfg, es, i, x) && x.Digest() in After(cfg, es + [e]).cache
    ensures Told(cfg, es + [e], i, x)
  {
    var s := After(cfg, es);
    PrefixOf(es, e, |es|);
    assert After(cfg, es + [e]) == Next(cfg, s, e);
    AfterInUniverse(cfg, u, es);
    CachedSnoc(cfg, es, e, i, x);
    ExtendsSnoc(cfg, es, e, i, x);
    match e
    case Own(op) => OwnEffect(cfg, u, s, op, x);
    case Write(c) => WriteEffect(cfg, u, s, c, x);
  }

  lemma ToldFirst(cfg: Config, es: seq<Event>, e: Event, x: Certificate)
    requires x.Digest() !in After(cfg, es).cache && x.Digest() in Next(cfg, After(cfg, es), e).cache
    requires e.Own? && e.op.Query? ==> e.op.c.Digest() == x.Digest() ==> e.op.c == x
    ensures Told(cfg, es + [e], |es|, x)
  {
    var s := After(cfg, es);
    PrefixOf(es, e, |es|);
    assert e == Own(Query(x));
    assert (es + [e])[..|es| + 1] == es + [e];
    assert After(cfg, es + [e]) == HistorySpec(cfg, s, x).0;
    if cfg.maxHistoryDepth > 0 {
      HistoryStart(s.Known(), x, cfg.maxHistoryDepth);
    }
  }

  lemma {:induction false} CachedIsTold(cfg: Config, u: Graph, es: seq<Event>, x: Certificate) returns (i: nat)
    requires Universe(u) && AllAllowed(u, es) && Of(u, x) && x.Digest() in After(cfg, es).cache
    ensures Told(cfg, es, i, x)
    decreases |es|
  {
    assert es != [];
    var before, e := es[..|es| - 1], es[|es| - 1];
    assert es == before + [e] && Allowed(u, e);
    if x.Digest() in After(cfg, before).cache {
      i := CachedIsTold(cfg, u, before, x);
      ToldStep(cfg, u, before, e, i, x);
    } else {
      i := |before|;
      ToldFirst(cfg, before, e, x);
    }
  }

  lemma CachedOnce(cfg: Config, es: seq<Event>, i: nat, i': nat, x: Certificate)
    requires CachedSince(cfg, es, i, x) && CachedSince(cfg, es, i', x)
    ensures i == i'
  {}

  // After any run of the DAG's operations and the primary's writes, a query answers with the list a
  // fresh traversal returns exactly when no write since that list was cached has extended the
  // history.
  lemma AnswerIsFreshIff(cfg: Config, u: Graph, es: seq<Event>, x: Certificate)
    requires Universe(u) && AllAllowed(u, es) && Of(u, x)
    ensures var s := After(cfg, es);
      HistorySpec(cfg, s, x).1 == Fresh(cfg, s, x) <==>
      forall i: nat, j: nat :: CachedSince(cfg, es, i, x) && i < j < |es| ==> !ExtendsAt(cfg, es, j, x)
  {
    var s := After(cfg, es);
    assert es[..|es|] == es;
    if x.Digest() in s.cache {
      var i := CachedIsTold(cfg, u, es, x);
      forall i': nat | CachedSince(cfg, es, i', x) ensures i' == i {
        CachedOnce(cfg, es, i, i', x);
      }
    } else {
      assert forall i: nat :: !CachedSince(cfg, es, i, x);
    }
  }

  // ---- A stale answer --------------------------------------------------------------------------------------

  // The chain up to certificate d - 1, added one by one.
  ghost predicate HoldsChain(s: DagState, d: nat) {
    && (forall x :: x in s.index <==> 0 <= x < d) && (forall x: nat :: x in s.index ==> s.index[x] == Chain(x))
    && s.store == s.index && s.rounds.Keys == s.index.Keys
    && (forall x: nat :: x in s.rounds ==> s.rounds[x] == map[0 := Chain(x)])
  }

  lemma ChainGrows(cfg: Config, s: DagState, d: nat)
    requires cfg.hasStore && HoldsChain(s, d)
    ensures HoldsChain(AddSpec(cfg, s, Chain(d)), d + 1)
  {
    ChainParents(d);
    assert AddOutcome(s, Chain(d)) == Added;
  }

  // Only certificate 2 is left.
  ghost predicate OnlyTop(s: DagState) {
    && s.index == map[2 := Chain(2)] && s.store == map[2 := Chain(2)] && s.rounds == map[2 := map[0 := Chain(2)]]
  }

  lemma CollectLeavesTop(cfg: Config, s: DagState)
    requires HoldsChain(s, 3)
    ensures var s' := Step(cfg, s, CollectBefore(2)); OnlyTop(s') && s'.cache == map[] && s'.keys == []
  {
    var gone := DigestsBefore(s.rounds, 2);
    forall x: nat | x < 3 ensures x in gone <==> x < 2 {
      if x < 2 {
        assert x in s.rounds && 0 in s.rounds[x] && s.rounds[x][0].Digest() == x;
      }
    }
    assert s.index - gone == map[2 := Chain(2)];
    assert s.rounds - (set q | q in s.rounds && q < 2) == map[2 := map[0 := Chain(2)]];
  }

  lemma QueryCaches(cfg: Config, s: DagState)
    requires OnlyTop(s) && s.cache == map[] && s.keys == []
    ensures var s' := Step(cfg, s, Query(Chain(2)));
      OnlyTop(s') && s'.cache == map[2 := Fresh(cfg, s, Chain(2))]
  {
    assert EvictCount(cfg, s.keys) == 0;
    assert s.cache - Elems(s.keys[..0]) == map[];
  }

  // Delivering certificate 1 again stores it, and the DAG refuses it for want of certificate 0.
  lemma RedeliveredIsStored(cfg: Config, s: DagState)
    requires cfg.hasStore && OnlyTop(s)
    ensures var s' := Next(cfg, Next(cfg, s, Write(Chain(1))), Own(Add(Chain(1))));
      && s'.Known() == s.Known()[1 := Chain(1)] && s'.cache == s.cache
      && Delivered(cfg, NodeState(s, map[]), Msg(Chain(1), true),
        NodeState(s', map[1 := Chain(1)]))
  {
    var s1 := Next(cfg, s, Write(Chain(1)));
    MissesZero(s1);
    assert s1 == s.(store := map[2 := Chain(2)][1 := Chain(1)]);
  }

  lemma MissesZero(s: DagState)
    requires s.rounds == map[2 := map[0 := Chain(2)]] && 0 !in s.Known()
    ensures AddOutcome(s, Chain(1)) == MissingParents
  {
    ChainParents(1);
    assert 0 in Chain(1).Parents();
  }

  ghost function Before(): seq<Event> {
    [Own(Add(Chain(0)))] + [Own(Add(Chain(1)))] + [Own(Add(Chain(2)))]
    + [Own(CollectBefore(2))] + [Own(Query(Chain(2)))]
  }

  lemma AfterSnoc(cfg: Config, es: seq<Event>, e: Event)
    ensures After(cfg, es + [e]) == Next(cfg, After(cfg, es), e)
  {
    PrefixOf(es, e, |es|);
    assert es[..|es|] == es;
  }

  lemma BeforeLeaves(cfg: Config)
    requires cfg.hasStore
    ensures var s := After(cfg, Before()); OnlyTop(s) && s.cache == map[2 := Fresh(cfg, s, Chain(2))]
  {
    var e0, e1 := [Own(Add(Chain(0)))], [Own(Add(Chain(0)))] + [Own(Add(Chain(1)))];
    var e2 := e1 + [Own(Add(Chain(2)))];
    var e3 := e2 + [Own(CollectBefore(2))];
    assert [] + [Own(Add(Chain(0)))] == e0;
    AfterSnoc(cfg, [], Own(Add(Chain(0))));
    ChainGrows(cfg, Empty(), 0);
    AfterSnoc(cfg, e0, Own(Add(Chain(1))));
    ChainGrows(cfg, After(cfg, e0), 1);
    AfterSnoc(cfg, e1, Own(Add(Chain(2))));
    ChainGrows(cfg, After(cfg, e1), 2);
    AfterSnoc(cfg, e2, Own(CollectBefore(2)));
    CollectLeavesTop(cfg, After(cfg, e2));
    AfterSnoc(cfg, e3, Own(Query(Chain(2))));
    QueryCaches(cfg, After(cfg, e3));
  }

  // Certificates 0, 1 and 2, each citing the one before, are added; all rounds below 2 are
  // collected; 2's history is queried; and 1 is delivered again.  The next query of 2 still answers
  // without 1, which a fresh traversal finds.
  lemma StaleAnswer(cfg: Config)
    requires cfg.hasStore && cfg.maxHistoryDepth > 1
    ensures var s0, s := After(cfg, Before()), After(cfg, Before() + [Write(Chain(1))] + [Own(Add(Chain(1)))]);
      && Delivered(cfg, NodeState(s0, map[]), Msg(Chain(1), true),
        NodeState(s, map[1 := Chain(1)]))
      && 1 !in Digests(HistorySpec(cfg, s, Chain(2)).1) && 1 in Digests(Fresh(cfg, s, Chain(2)))
  {
    var es := Before();
    var s0 := After(cfg, es);
    BeforeLeaves(cfg);
    AfterSnoc(cfg, es, Write(Chain(1)));
    AfterSnoc(cfg, es + [Write(Chain(1))], Own(Add(Chain(1))));
    RedeliveredIsStored(cfg, s0);
    var g, m := s0.Known(), cfg.maxHistoryDepth;
    assert g == map[2 := Chain(2)];
    HistoryStart(g, Chain(2), m - 1);
    ChainParents(2);
    CitedDigestAppears(g, Chain(1), Chain(2), Chain(2), m);
  }
}
