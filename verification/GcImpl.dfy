// The garbage collector, as a program.
module GcImpl {
  import opened Types
  import opened Lists
  import opened Dag
  import opened DagImpl
  import opened BatchStore
  import opened TxIndex
  import opened Gc
  import History

  ghost predicate AllIn(m: Contents, listing: seq<Hash>) {
    forall i :: 0 <= i < |listing| ==> listing[i] in m
  }

  // The transactions of the listed batches, one batch after the other.
  ghost function TxsOfAll(m: Contents, listing: seq<Hash>): seq<Transaction>
    requires AllIn(m, listing)
  {
    if listing == [] then [] else TxsOfAll(m, listing[..|listing| - 1]) + m[listing[|listing| - 1]].txs
  }

  lemma {:induction false} TxsOfAllAppend(m: Contents, a: seq<Hash>, b: seq<Hash>)
    requires AllIn(m, a) && AllIn(m, b)
    ensures TxsOfAll(m, a + b) == TxsOfAll(m, a) + TxsOfAll(m, b)
    decreases |b|
  {
    if b == [] {
      assert a + b == a;
    } else {
      var front, last, all := b[..|b| - 1], b[|b| - 1], a + b;
      TxsOfAllAppend(m, a, front);
      assert all[..|all| - 1] == a + front && all[|all| - 1] == last;
      assert TxsOfAll(m, all) == TxsOfAll(m, a + front) + m[last].txs;
    }
  }

  // txs is what the given batches carry, each batch once.
  ghost predicate Hands(m: Contents, txs: seq<Transaction>, listing: seq<Hash>, ds: set<Hash>) {
    NoDup(listing) && Elems(listing) == ds && AllIn(m, listing) && txs == TxsOfAll(m, listing)
  }

  lemma HandsMore(m: Contents, txs: seq<Transaction>, listing: seq<Hash>, ds: set<Hash>,
                  txs': seq<Transaction>, listing': seq<Hash>, ds': set<Hash>)
    requires Hands(m, txs, listing, ds) && Hands(m, txs', listing', ds') && ds !! ds'
    ensures Hands(m, txs + txs', listing + listing', ds + ds')
  {
    ElemsAppend(listing, listing');
    TxsOfAllAppend(m, listing, listing');
    assert forall i :: 0 <= i < |listing| ==> listing[i] in Elems(listing);
    assert forall i :: 0 <= i < |listing'| ==> listing'[i] in Elems(listing');
  }

  lemma HandsOne(m: Contents, d: Hash)
    requires d in m
    ensures Hands(m, m[d].txs, [d], {d})
  {
    assert TxsOfAll(m, [d]) == TxsOfAll(m, []) + m[d].txs;
    assert [d][..0] == [];
  }

  class GCManager {
    const g: Settings
    const dag: DAG
    const batchStore: MemoryBatchStore
    const txIndex: MemoryTxIndex
    var tracked: map<Hash, nat>
    var committed: nat
    var last: nat

    ghost function State(): GcState
      reads this, dag, batchStore, txIndex
    {
      GcState(dag.State(), batchStore.batches, txIndex.State(), tracked, committed, last)
    }

    ghost predicate Valid()
      reads this, dag, batchStore, txIndex
    {
      batchStore.Valid() && Inverse(txIndex.State()) && Agree(dag.State()) && History.Keyed(dag.certStore)
    }

    constructor (g: Settings, dag: DAG, batchStore: MemoryBatchStore, txIndex: MemoryTxIndex)
      ensures this.g == g && this.dag == dag && this.batchStore == batchStore && this.txIndex == txIndex
      ensures tracked == map[] && committed == 0 && last == 0
    {
      this.g, this.dag, this.batchStore, this.txIndex := g, dag, batchStore, txIndex;
      tracked, committed, last := map[], 0, 0;
    }

    // Whether a batch is cited by some certificate of the list.
    method CitedBy(certs: seq<Certificate>) returns (cited: set<Hash>)
      ensures forall d :: d in cited <==> exists c :: c in Elems(certs) && d in c.header.BatchDigests()
    {
      cited := {};
      for i := 0 to |certs|
        invariant forall d :: d in cited <==> exists c :: c in Elems(certs[..i]) && d in c.header.BatchDigests()
      {
        var refs := certs[i].header.batchRefs;
        var more: set<Hash> := {};
        for j := 0 to |refs|
          invariant more == set ref | ref in refs[..j] :: ref.digest
        {
          assert refs[..j + 1] == refs[..j] + [refs[j]];
          more := more + {refs[j].digest};
        }
        assert refs[..|refs|] == refs;
        assert more == certs[i].header.BatchDigests();
        assert certs[..i + 1] == certs[..i] + [certs[i]];
        ElemsAppend(certs[..i], [certs[i]]);
        assert certs[i] in Elems(certs[..i + 1]);
        cited := cited + more;
      }
      assert certs[..|certs|] == certs;
    }

    // The uncited batches of one round, taken out of the index.
    method ScanRound(r: nat) returns (txs: seq<Transaction>, ghost listing: seq<Hash>)
      requires Valid()
      modifies txIndex
      ensures Valid()
        && txIndex.State() == WithoutBatches(old(txIndex.State()), UncitedOf(dag.State(), batchStore.batches, r))
      ensures Hands(batchStore.batches, txs, listing, UncitedOf(dag.State(), batchStore.batches, r))
    {
      var bs := batchStore.GetBatchesByRound(r);
      var certs := dag.GetCertificatesForRound(r);
      var cited := CitedBy(certs);
      ghost var m := batchStore.batches;
      forall b | b in bs ensures b.digest in m && m[b.digest] == b {
        assert b in Elems(bs);
      }
      UncitedAll(dag.State(), m, r, bs, cited);
      txs, listing := TakeUncited(bs, cited, m);
    }

    method TakeUncited(bs: seq<Batch>, cited: set<Hash>, ghost m: Contents)
      returns (txs: seq<Transaction>, ghost listing: seq<Hash>)
      requires Inverse(txIndex.State()) && NoDup(bs) && forall b :: b in bs ==> b.digest in m && m[b.digest] == b
      modifies txIndex
      ensures Inverse(txIndex.State()) && txIndex.State() == WithoutBatches(old(txIndex.State()), Uncited(bs, cited))
      ensures Hands(m, txs, listing, Uncited(bs, cited))
    {
      txs, listing := [], [];
      ghost var start := txIndex.State();
      WithoutNone(start);
      for i := 0 to |bs|
        invariant Inverse(txIndex.State())
        invariant txIndex.State() == WithoutBatches(start, Uncited(bs[..i], cited))
        invariant Hands(m, txs, listing, Uncited(bs[..i], cited))
      {
        var b := bs[i];
        UncitedSnoc(m, bs, i, cited);
        if b.digest !in cited {
          WithoutKeepsInverse(txIndex.State(), {b.digest});
          WithoutTwice(start, Uncited(bs[..i], cited), {b.digest});
          HandsOne(m, b.digest);
          HandsMore(m, txs, listing, Uncited(bs[..i], cited), b.txs, [b.digest], {b.digest});
          txIndex.RemoveTxsForBatch(b.digest);
          txs := txs + b.txs;
          listing := listing + [b.digest];
        }
      }
      assert bs[..|bs|] == bs;
    }

    // Scan the rounds since the last collection.
    method ExtractFallback(cutoff: nat) returns (txs: seq<Transaction>, ghost listing: seq<Hash>)
      requires Valid()
      modifies txIndex
      ensures Valid() && txIndex.State() == WithoutBatches(old(txIndex.State()), Scanned(old(State()), cutoff))
      ensures Hands(batchStore.batches, txs, listing, Scanned(old(State()), cutoff))
    {
      ghost var s := State();
      txs, listing := [], [];
      ScanStart(s);
      var r := StartRound(last);
      while r < cutoff
        invariant Inverse(txIndex.State()) && r >= StartRound(last) && (r == StartRound(last) || r <= cutoff)
        invariant txIndex.State() == WithoutBatches(s.index, Scanned(s, r))
        invariant Hands(s.batches, txs, listing, Scanned(s, r))
      {
        txs, listing := ScanNext(s, r, txs, listing);
        r := r + 1;
      }
      ScannedPast(s, r, cutoff);
    }

    method ScanNext(ghost s: GcState, r: nat, txs: seq<Transaction>, ghost listing: seq<Hash>)
      returns (txs': seq<Transaction>, ghost listing': seq<Hash>)
      requires Valid() && s.dag == dag.State() && s.batches == batchStore.batches && r >= StartRound(s.last)
      requires txIndex.State() == WithoutBatches(s.index, Scanned(s, r))
        && Hands(s.batches, txs, listing, Scanned(s, r))
      modifies txIndex
      ensures Inverse(txIndex.State()) && txIndex.State() == WithoutBatches(s.index, Scanned(s, r + 1))
      ensures Hands(s.batches, txs', listing', Scanned(s, r + 1))
    {
      txs', listing' := ScanRound(r);
      ScanStep(s, r, txs, listing, txs', listing');
      txs', listing' := txs + txs', listing + listing';
    }

    // The tracked batches of old rounds, or, when there are none, what the scan finds.
    method ExtractUncommittedTxs(cutoff: nat) returns (txs: seq<Transaction>, ghost listing: seq<Hash>)
      requires Valid()
      modifies this`tracked, txIndex
      ensures Valid() && State() == ExtractSpec(old(State()), cutoff)
      ensures Hands(old(batchStore.batches), txs, listing, Recovered(old(State()), cutoff))
    {
      var done := set d | d in tracked && tracked[d] < cutoff;
      assert done == Tracked(State(), cutoff);
      ghost var s := State();
      txs, listing := ReadTracked(done);
      tracked := tracked - done;
      if done != {} {
        Unindex(done);
      } else {
        txs, listing := ExtractFallback(cutoff);
        assert s.tracked - done == s.tracked;
      }
    }

    method ReadTracked(done: set<Hash>) returns (txs: seq<Transaction>, ghost listing: seq<Hash>)
      ensures Hands(batchStore.batches, txs, listing, done * batchStore.batches.Keys)
    {
      txs, listing := [], [];
      var left := done;
      ghost var m := batchStore.batches;
      while left != {}
        invariant left <= done && Hands(m, txs, listing, (done - left) * m.Keys)
        decreases left
      {
        var d := Pick(left);
        var b := batchStore.GetBatch(d);
        if b.Some? {
          HandsOne(m, d);
          HandsMore(m, txs, listing, (done - left) * m.Keys, m[d].txs, [d], {d});
          txs, listing := txs + b.value.txs, listing + [d];
          assert (done - left) * m.Keys + {d} == (done - (left - {d})) * m.Keys;
        } else {
          assert (done - left) * m.Keys == (done - (left - {d})) * m.Keys;
        }
        left := left - {d};
      }
    }

    method Unindex(done: set<Hash>)
      requires Inverse(txIndex.State())
      modifies txIndex
      ensures Inverse(txIndex.State()) && txIndex.State() == WithoutBatches(old(txIndex.State()), done)
    {
      var left := done;
      ghost var start := txIndex.State();
      WithoutNone(start);
      while left != {}
        invariant left <= done && Inverse(txIndex.State()) && txIndex.State() == WithoutBatches(start, done - left)
        decreases left
      {
        var d := Pick(left);
        WithoutKeepsInverse(txIndex.State(), {d});
        WithoutTwice(start, done - left, {d});
        txIndex.RemoveTxsForBatch(d);
        assert done - left + {d} == done - (left - {d});
        left := left - {d};
      }
      assert done - left == done;
    }

    // Everything below the cutoff goes; the transactions to add back are returned.
    method PerformGC(cutoff: nat) returns (txs: seq<Transaction>, ghost listing: seq<Hash>)
      requires Valid()
      modifies this, dag, batchStore, txIndex
      ensures Valid() && State() == PerformSpec(g, old(State()), cutoff)
      ensures if g.recover then Hands(old(batchStore.batches), txs, listing, Recovered(old(State()), cutoff))
        else txs == []
    {
      txs, listing := [], [];
      if g.recover {
        txs, listing := ExtractUncommittedTxs(cutoff);
      }
      Delete(cutoff);
    }

    method Delete(cutoff: nat)
      requires Valid()
      modifies this`last, dag, batchStore, txIndex
      ensures Valid() && State() == DeleteSpec(old(State()), cutoff)
    {
      PruneKeepsInverse(txIndex.State(), cutoff);
      PruneDag(cutoff);
      batchStore.DeleteBatchesBefore(cutoff);
      var pruned := txIndex.PruneOlderThan(cutoff);
      if cutoff > 0 {
        last := cutoff - 1;
      }
    }

    // The DAG's rounds, and the certificate store it reads.
    method PruneDag(cutoff: nat)
      requires Agree(dag.State()) && History.Keyed(dag.certStore)
      modifies dag
      ensures Agree(dag.State()) && History.Keyed(dag.certStore)
      ensures dag.State() == PruneBeforeSpec(old(dag.State()), cutoff).(store := StoreFrom(old(dag.certStore), cutoff))
    {
      PruneBeforeExact(dag.State(), cutoff);
      dag.PruneRoundsBefore(cutoff);
      dag.certStore := map d | d in dag.certStore && dag.certStore[d].Round() >= cutoff :: dag.certStore[d];
    }

    method NotifyCommitted(round: nat) returns (txs: seq<Transaction>, ghost listing: seq<Hash>)
      requires Valid()
      modifies this, dag, batchStore, txIndex
      ensures Valid() && State() == NotifySpec(g, old(State()), round)
      ensures var s := CommitSpec(old(State()), round); var cutoff := Cutoff(s.committed, g.depth);
        if g.recover && cutoff > 0 then Hands(s.batches, txs, listing, Recovered(s, cutoff)) else txs == []
    {
      if round > committed {
        committed := round;
      }
      txs, listing := [], [];
      var cutoff := Cutoff(committed, g.depth);
      if cutoff != 0 {
        txs, listing := PerformGC(cutoff);
      }
    }
  }

  ghost function UncitedOf(dag: DagState, m: Contents, r: nat): set<Hash> {
    set d | d in m && m[d].round == r && !Cited(dag, d, r)
  }

  ghost function Uncited(bs: seq<Batch>, cited: set<Hash>): set<Hash> {
    set b | b in bs && b.digest !in cited :: b.digest
  }

  lemma UncitedSnoc(m: Contents, bs: seq<Batch>, i: nat, cited: set<Hash>)
    requires i < |bs| && NoDup(bs) && forall b :: b in bs ==> b.digest in m && m[b.digest] == b
    ensures Uncited(bs[..i + 1], cited) == Uncited(bs[..i], cited) + if bs[i].digest !in cited then {bs[i].digest}
      else {}
    ensures bs[i].digest !in Uncited(bs[..i], cited)
  {
    assert bs[..i + 1] == bs[..i] + [bs[i]];
    forall b | b in bs[..i] ensures b.digest != bs[i].digest {
      assert b != bs[i];
    }
  }

  lemma UncitedAll(dag: DagState, m: Contents, r: nat, bs: seq<Batch>, cited: set<Hash>)
    requires BatchStore.Keyed(m) && Elems(bs) == OfRound(m, r)
    requires forall d :: d in cited <==> exists c :: c in RoundCerts(dag, r) && d in c.header.BatchDigests()
    ensures Uncited(bs, cited) == UncitedOf(dag, m, r)
  {
    forall d | d in UncitedOf(dag, m, r) ensures d in Uncited(bs, cited) {
      assert m[d] in Elems(bs);
      assert m[d] in bs && m[d].digest == d && d !in cited;
    }
    forall d | d in Uncited(bs, cited) ensures d in UncitedOf(dag, m, r) {
      var b :| b in bs && b.digest !in cited && b.digest == d;
      assert b in Elems(bs);
    }
  }

  lemma ScannedSnoc(s: GcState, r: nat)
    requires r >= StartRound(s.last)
    ensures Scanned(s, r + 1) == Scanned(s, r) + UncitedOf(s.dag, s.batches, r)
      && Scanned(s, r) !! UncitedOf(s.dag, s.batches, r)
  {}

  lemma ScanStart(s: GcState)
    ensures WithoutBatches(s.index, Scanned(s, StartRound(s.last))) == s.index
    ensures Hands(s.batches, [], [], Scanned(s, StartRound(s.last)))
  {
    assert Scanned(s, StartRound(s.last)) == {};
    WithoutNone(s.index);
  }

  lemma ScanStep(s: GcState, r: nat, txs: seq<Transaction>, listing: seq<Hash>, txs': seq<Transaction>,
                 listing': seq<Hash>)
    requires r >= StartRound(s.last) && Hands(s.batches, txs, listing, Scanned(s, r))
    requires Hands(s.batches, txs', listing', UncitedOf(s.dag, s.batches, r))
    ensures Hands(s.batches, txs + txs', listing + listing', Scanned(s, r + 1))
    ensures WithoutBatches(WithoutBatches(s.index, Scanned(s, r)), UncitedOf(s.dag, s.batches, r)) ==
      WithoutBatches(s.index, Scanned(s, r + 1))
  {
    var found := UncitedOf(s.dag, s.batches, r);
    ScannedSnoc(s, r);
    WithoutTwice(s.index, Scanned(s, r), found);
    HandsMore(s.batches, txs, listing, Scanned(s, r), txs', listing', found);
  }

  lemma ScannedPast(s: GcState, r: nat, cutoff: nat)
    requires r >= cutoff && (r == StartRound(s.last) || r == cutoff)
    ensures Scanned(s, r) == Scanned(s, cutoff)
  {}
}
