// The DAG object of dag/dag.go, proved against the specification in module Dag.
module DagImpl {
  import opened Types
  import opened Lists
  import opened History
  import opened Dag
  import opened Ordering

  class DAG {
    const cfg: Config
    var rounds: map<nat, map<nat, Certificate>>
    var certIndex: map<Hash, Certificate>
    var certStore: map<Hash, Certificate>
    var highestRound: nat
    var historyCache: map<Hash, seq<Certificate>>
    var historyCacheKeys: seq<Hash>

    ghost function State(): DagState
      reads this
    {
      DagState(rounds, certIndex, certStore, highestRound, historyCache, historyCacheKeys)
    }

    constructor (cfg: Config)
      ensures this.cfg == cfg && State() == Empty()
    {
      this.cfg := cfg;
      rounds, certIndex, certStore, highestRound := map[], map[], map[], 0;
      historyCache, historyCacheKeys := map[], [];
    }

    method GetCertificate(digest: Hash) returns (r: Option<Certificate>)
      ensures r == if digest in State().Known() then Some(State().Known()[digest]) else None
    {
      if digest in certIndex {
        return Some(certIndex[digest]);
      }
      if digest in certStore {
        return Some(certStore[digest]);
      }
      return None;
    }

    method AddCertificate(c: Certificate) returns (res: AddResult)
      modifies this
      ensures res == AddOutcome(old(State()), c)
      ensures State() == AddSpec(cfg, old(State()), c)
    {
      ghost var s := State();
      if c.Round() !in rounds {
        rounds := rounds[c.Round() := map[]];
      }
      assert rounds == Opened(s.rounds, c.Round());
      if c.Author() in rounds[c.Round()] {
        return DuplicateHeader;
      }
      if c.Round() > 0 {
        var known := HasAll(c.header.parents);
        assert known == ParentsKnown(s, c);
        if !known {
          return MissingParents;
        }
      }
      Insert(c);
      return Added;
    }

    // Place an acceptable certificate in its round, the index and the store.
    method Insert(c: Certificate)
      requires c.Round() in rounds
      modifies this
      ensures rounds == old(rounds)[c.Round() := Placed(old(rounds)[c.Round()], c)]
      ensures certIndex == old(certIndex)[c.Digest() := c]
      ensures certStore == if cfg.hasStore then Saved(old(certStore), c) else old(certStore)
      ensures highestRound == if c.Round() > old(highestRound) then c.Round() else old(highestRound)
      ensures historyCache == old(historyCache) - StaleKeys(old(historyCache), c.Round())
      ensures historyCacheKeys == Without(old(historyCacheKeys), StaleKeys(old(historyCache), c.Round()))
    {
      var certs: map<nat, Certificate> := rounds[c.Round()];
      certs := certs[c.Author() := c];
      rounds := rounds[c.Round() := certs];
      certIndex := certIndex[c.Digest() := c];
      if c.Round() > highestRound {
        highestRound := c.Round();
      }
      InvalidateHistoryCacheFor(c.Round());
      if cfg.hasStore && c.Digest() !in certStore {
        certStore := certStore[c.Digest() := c];
      }
    }

    // The parent check of AddCertificate: every reference resolves.
    method HasAll(refs: seq<CertRef>) returns (all: bool)
      ensures all <==> RefDigests(refs) <= State().Known().Keys
    {
      for i := 0 to |refs|
        invariant forall j :: 0 <= j < i ==> refs[j].digest in State().Known()
      {
        if refs[i].digest !in certIndex && refs[i].digest !in certStore {
          assert refs[i].digest in RefDigests(refs);
          return false;
        }
      }
      return true;
    }

    method InvalidateHistoryCacheFor(newRound: nat)
      modifies this`historyCache, this`historyCacheKeys
      ensures historyCache == old(historyCache) - StaleKeys(old(historyCache), newRound)
      ensures historyCacheKeys == Without(old(historyCacheKeys), StaleKeys(old(historyCache), newRound))
    {
      ghost var gone := StaleKeys(historyCache, newRound);
      var cache, keysToRemove: set<Hash> := historyCache, {};
      var todo := cache.Keys;
      while todo != {}
        invariant todo <= cache.Keys
        invariant historyCache == old(historyCache) && historyCacheKeys == old(historyCacheKeys)
        invariant keysToRemove == gone - todo
        decreases todo
      {
        var digest := Pick(todo);
        todo := todo - {digest};
        var history := cache[digest];
        if |history| > 0 && history[0].Round() > newRound {
          keysToRemove := keysToRemove + {digest};
        }
      }
      historyCache := historyCache - keysToRemove;
      var newKeys: seq<Hash> := [];
      for i := 0 to |historyCacheKeys|
        invariant historyCacheKeys == old(historyCacheKeys) && historyCache == old(historyCache) - gone
        invariant newKeys == Without(historyCacheKeys[..i], gone)
      {
        var key := historyCacheKeys[i];
        assert historyCacheKeys[..i + 1] == historyCacheKeys[..i] + [key];
        WithoutSnoc(historyCacheKeys[..i], key, gone);
        if key !in keysToRemove {
          newKeys := newKeys + [key];
        }
      }
      assert historyCacheKeys[..|historyCacheKeys|] == historyCacheKeys;
      historyCacheKeys := newKeys;
    }

    method CausalHistory(c: Certificate) returns (h: seq<Certificate>)
      modifies this`historyCache, this`historyCacheKeys
      ensures (State(), h) == HistorySpec(cfg, old(State()), c)
    {
      if c.Digest() in historyCache {
        return historyCache[c.Digest()];
      }
      h := Traverse(c);
      ghost var n := EvictCount(cfg, historyCacheKeys);
      assert historyCacheKeys[0..] == historyCacheKeys && historyCache - Elems(historyCacheKeys[..0]) == historyCache;
      if cfg.maxHistoryCacheSize > 0 && |historyCacheKeys| >= cfg.maxHistoryCacheSize {
        var evictCount := cfg.maxHistoryCacheSize / 10;
        if evictCount < 1 {
          evictCount := 1;
        }
        Evict(evictCount);
      }
      historyCache := historyCache[c.Digest() := h];
      historyCacheKeys := historyCacheKeys + [c.Digest()];
    }

    method Evict(count: nat)
      requires count <= |historyCacheKeys|
      modifies this`historyCache, this`historyCacheKeys
      ensures historyCacheKeys == old(historyCacheKeys)[count..]
      ensures historyCache == old(historyCache) - Elems(old(historyCacheKeys)[..count])
    {
      var i := 0;
      while i < count && |historyCacheKeys| > 0
        invariant 0 <= i <= count
        invariant historyCacheKeys == old(historyCacheKeys)[i..]
        invariant historyCache == old(historyCache) - Elems(old(historyCacheKeys)[..i])
      {
        var oldKey := historyCacheKeys[0];
        assert old(historyCacheKeys)[..i + 1] == old(historyCacheKeys)[..i] + [oldKey];
        ElemsAppend(old(historyCacheKeys)[..i], [oldKey]);
        historyCacheKeys := historyCacheKeys[1..];
        historyCache := historyCache - {oldKey};
        i := i + 1;
      }
    }

    // The breadth-first walk: one queue, consumed a level at a time.
    method Traverse(c: Certificate) returns (result: seq<Certificate>)
      ensures result == FreshHistory(State().Known(), c, cfg.maxHistoryDepth)
    {
      ghost var g, target := State().Known(), FreshHistory(State().Known(), c, cfg.maxHistoryDepth);
      var visited := {c.Digest()};
      var queue := [c];
      result := [];
      var depth := 0;
      while |queue| > 0 && depth < cfg.maxHistoryDepth
        invariant 0 <= depth && (depth == 0 || depth <= cfg.maxHistoryDepth)
        invariant target ==
          result + Walk(g, queue, visited, if cfg.maxHistoryDepth < depth then 0 else cfg.maxHistoryDepth - depth)
        decreases cfg.maxHistoryDepth - depth
      {
        queue, visited, result := NextLevel(queue, visited, result);
        depth := depth + 1;
      }
    }

    // Pop every certificate of one level from the front of the queue while its unseen,
    // resolvable parents join the back.
    method NextLevel(level: seq<Certificate>, seen: set<Hash>, soFar: seq<Certificate>)
      returns (queue: seq<Certificate>, visited: set<Hash>, result: seq<Certificate>)
      ensures (visited, queue) == ExpandLevel(State().Known(), level, seen, [])
      ensures result == soFar + level
    {
      ghost var g := State().Known();
      queue, visited, result := level, seen, soFar;
      var levelSize := |level|;
      assert level[0..] == level && queue[levelSize..] == [];
      for i := 0 to levelSize
        invariant levelSize - i <= |queue| && queue[..levelSize - i] == level[i..]
        invariant ExpandLevel(g, level, seen, []) == ExpandLevel(g, level[i..], visited, queue[levelSize - i..])
        invariant result == soFar + level[..i]
      {
        var current := queue[0];
        queue := queue[1..];
        result := result + [current];
        assert current == level[i] && level[i..][1..] == level[i + 1..];
        var next;
        next, visited := FollowParents(current.header.parents, visited, queue, levelSize - i - 1);
        queue := next;
      }
    }

    // Follow one certificate's references; `keep` entries of the queue belong to this level.
    method FollowParents(refs: seq<CertRef>, seen: set<Hash>, waiting: seq<Certificate>, ghost keep: nat)
      returns (queue: seq<Certificate>, visited: set<Hash>)
      requires keep <= |waiting|
      ensures keep <= |queue| && queue[..keep] == waiting[..keep]
      ensures (visited, queue[keep..]) == ExpandOne(State().Known(), refs, seen, waiting[keep..])
    {
      ghost var g := State().Known();
      queue, visited := waiting, seen;
      for j := 0 to |refs|
        invariant keep <= |queue| && queue[..keep] == waiting[..keep]
        invariant ExpandOne(g, refs, seen, waiting[keep..]) == ExpandOne(g, refs[j..], visited, queue[keep..])
      {
        var digest := refs[j].digest;
        assert refs[j..][1..] == refs[j + 1..];
        if digest !in visited {
          visited := visited + {digest};
          var parent := GetCertificate(digest);
          if parent.Some? {
            assert (queue + [parent.value])[keep..] == queue[keep..] + [parent.value];
            queue := queue + [parent.value];
          }
        }
      }
    }

    method PruneRound(round: nat)
      modifies this
      ensures State() == PruneRoundSpec(old(State()), round)
    {
      if round in rounds {
        UnindexRound(rounds[round]);
      }
      rounds := rounds - {round};
      historyCache, historyCacheKeys := map[], [];
    }

    // Remove one round's certificates from the index.
    method UnindexRound(certs: map<nat, Certificate>)
      modifies this`certIndex
      ensures certIndex == old(certIndex) - RoundDigests(certs)
    {
      var todo := certs.Keys;
      ghost var done: set<nat> := {};
      while todo != {}
        invariant done !! todo && done + todo == certs.Keys
        invariant certIndex == old(certIndex) - (set a | a in done :: certs[a].Digest())
        decreases todo
      {
        var a := Pick(todo);
        todo := todo - {a};
        done := done + {a};
        certIndex := certIndex - {certs[a].Digest()};
      }
      assert done == certs.Keys;
    }

    method PruneRoundsBefore(round: nat)
      modifies this
      ensures State() == PruneBeforeSpec(old(State()), round)
    {
      ghost var was := rounds;
      var todo := rounds.Keys;
      ghost var done: set<nat> := {};
      while todo != {}
        invariant done !! todo && done + todo == was.Keys
        invariant rounds == was - (set q | q in done && q < round)
        invariant certIndex == old(certIndex) - DigestsAmong(was, done, round)
        invariant certStore == old(certStore) && highestRound == old(highestRound)
        decreases todo
      {
        var r := Pick(todo);
        todo := todo - {r};
        DigestsAmongGrows(was, done, r, round);
        done := done + {r};
        if r < round {
          UnindexRound(rounds[r]);
          rounds := rounds - {r};
        }
      }
      assert done == was.Keys && DigestsAmong(was, done, round) == DigestsBefore(was, round);
      historyCache, historyCacheKeys := map[], [];
    }

    method GetCertificatesForRound(round: nat) returns (certs: seq<Certificate>)
      requires Agree(State()) && Keyed(certStore)
      ensures Elems(certs) == RoundCerts(State(), round) && NoDup(certs)
    {
      certs := [];
      if round in rounds {
        var slots := rounds[round];
        var todo := slots.Keys;
        while todo != {}
          invariant todo <= slots.Keys && NoDup(certs)
          invariant Elems(certs) == set a | a in slots && a !in todo :: slots[a]
          decreases todo
        {
          var a := Pick(todo);
          assert Holds(rounds, round, a, slots[a]);
          assert forall b :: b in slots ==> Holds(rounds, round, b, slots[b]);
          ElemsAppend(certs, [slots[a]]);
          assert slots[a] !in Elems(certs);
          certs := certs + [slots[a]];
          todo := todo - {a};
        }
      } else {
        var todo := certStore.Keys;
        while todo != {}
          invariant todo <= certStore.Keys && NoDup(certs)
          invariant Elems(certs) ==
            set d | d in certStore && d !in todo && certStore[d].Round() == round :: certStore[d]
          decreases todo
        {
          var d := Pick(todo);
          ElemsAppend(certs, [certStore[d]]);
          assert certStore[d] !in Elems(certs);
          if certStore[d].Round() == round {
            certs := certs + [certStore[d]];
          }
          todo := todo - {d};
        }
      }
    }

    // Rounds in ascending order, each sorted by author.
    method GetOrderedCertificates(fromRound: nat, toRound: nat) returns (result: seq<Certificate>)
      requires Agree(State()) && Keyed(certStore)
      ensures Elems(result) == RangeCerts(State(), fromRound, toRound + 1)
      ensures Sorted(result) && NoDup(result)
    {
      result := [];
      if fromRound > toRound {
        return;
      }
      for round := fromRound to toRound + 1
        invariant Elems(result) == RangeCerts(State(), fromRound, round)
        invariant Sorted(result) && NoDup(result)
        invariant forall c :: c in result ==> c.Round() < round
      {
        var certs := GetCertificatesForRound(round);
        forall c | c in certs ensures c.Round() == round {
          assert c in Elems(certs);
          RoundCertsRound(State(), round, c);
        }
        var sorted := SortByAuthor(certs, round);
        JoinSorted(result, sorted);
        ElemsAppend(result, sorted);
        result := result + sorted;
      }
    }
  }

  // The digests of the certificates in those of the given rounds that lie below `round`.
  ghost function DigestsAmong(was: map<nat, map<nat, Certificate>>, among: set<nat>, round: nat): set<Hash> {
    set q, a | q in among && q in was && q < round && a in was[q] :: was[q][a].Digest()
  }

  lemma DigestsAmongGrows(was: map<nat, map<nat, Certificate>>, among: set<nat>, r: nat, round: nat)
    requires r in was
    ensures DigestsAmong(was, among + {r}, round)
         == DigestsAmong(was, among, round) + (if r < round then RoundDigests(was[r]) else {})
  {}
}
