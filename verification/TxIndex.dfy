// The in-memory transaction index (store/memory_txindex.go).
module TxIndex {
  import opened Types
  import opened Lists

  datatype IndexState = IndexState(txToBatch: map<Hash, Hash>, batchToTxs: map<Hash, seq<Hash>>, rounds: map<Hash, nat>)

  // ---- Specification ----------------------------------------------------------------------------

  ghost function TxsOf(s: IndexState, b: Hash): seq<Hash> {
    if b in s.batchToTxs then s.batchToTxs[b] else []
  }

  // A transaction stays with the first batch that claims it.
  ghost function AddTxSpec(s: IndexState, t: Hash, b: Hash): IndexState {
    if t in s.txToBatch then s
    else s.(txToBatch := s.txToBatch[t := b], batchToTxs := s.batchToTxs[b := TxsOf(s, b) + [t]])
  }

  ghost function AddAllSpec(s: IndexState, txs: seq<Transaction>, b: Hash): IndexState {
    if txs == [] then s else AddTxSpec(AddAllSpec(s, txs[..|txs| - 1], b), txs[|txs| - 1].hash, b)
  }

  ghost function AddBatchSpec(s: IndexState, b: Batch): IndexState {
    AddAllSpec(s.(rounds := s.rounds[b.digest := b.round]), b.txs, b.digest)
  }

  // The index without the transactions of the given batches.
  ghost function WithoutBatches(s: IndexState, bs: set<Hash>): IndexState {
    s.(txToBatch := map t | t in s.txToBatch && s.txToBatch[t] !in bs :: s.txToBatch[t],
       batchToTxs := s.batchToTxs - bs)
  }

  ghost function RemoveSpec(s: IndexState, b: Hash): IndexState { WithoutBatches(s, {b}) }

  ghost function OldBatches(s: IndexState, cutoff: nat): set<Hash> {
    set b | b in s.rounds && s.rounds[b] < cutoff
  }

  ghost function PruneSpec(s: IndexState, cutoff: nat): IndexState {
    WithoutBatches(s, OldBatches(s, cutoff)).(rounds := s.rounds - OldBatches(s, cutoff))
  }

  datatype Event = AddTx(t: Hash, b: Hash) | AddBatch(batch: Batch) | RemoveTxs(b: Hash) | Prune(cutoff: nat)

  ghost function Step(s: IndexState, e: Event): IndexState {
    match e
    case AddTx(t, b) => AddTxSpec(s, t, b)
    case AddBatch(batch) => AddBatchSpec(s, batch)
    case RemoveTxs(b) => RemoveSpec(s, b)
    case Prune(cutoff) => PruneSpec(s, cutoff)
  }

  ghost function Run(es: seq<Event>): IndexState {
    if es == [] then IndexState(map[], map[], map[]) else Step(Run(es[..|es| - 1]), es[|es| - 1])
  }

  // ---- The invariant --------------------------------------------------------------------------------

  // The two maps are exact inverses, without duplicates.
  ghost predicate Inverse(s: IndexState) {
    && (forall t :: t in s.txToBatch ==> t in TxsOf(s, s.txToBatch[t]))
    && (forall b, i :: b in s.batchToTxs && 0 <= i < |s.batchToTxs[b]| ==>
          s.batchToTxs[b][i] in s.txToBatch && s.txToBatch[s.batchToTxs[b][i]] == b)
    && (forall b :: b in s.batchToTxs ==> NoDup(s.batchToTxs[b]))
  }

  lemma AddTxKeepsInverse(s: IndexState, t: Hash, b: Hash)
    requires Inverse(s)
    ensures Inverse(AddTxSpec(s, t, b))
  {
    if t !in s.txToBatch {
      var s' := AddTxSpec(s, t, b);
      assert t !in TxsOf(s, b);
      assert s'.batchToTxs[b][|TxsOf(s, b)|] == t;
      forall x | x in s'.txToBatch ensures x in TxsOf(s', s'.txToBatch[x]) {
        if x != t {
          assert x in TxsOf(s, s.txToBatch[x]);
        }
      }
    }
  }

  lemma {:induction false} AddAllKeepsInverse(s: IndexState, txs: seq<Transaction>, b: Hash)
    requires Inverse(s)
    ensures Inverse(AddAllSpec(s, txs, b))
    decreases |txs|
  {
    if txs != [] {
      AddAllKeepsInverse(s, txs[..|txs| - 1], b);
      AddTxKeepsInverse(AddAllSpec(s, txs[..|txs| - 1], b), txs[|txs| - 1].hash, b);
    }
  }

  lemma WithoutKeepsInverse(s: IndexState, bs: set<Hash>)
    requires Inverse(s)
    ensures Inverse(WithoutBatches(s, bs))
  {
    var s' := WithoutBatches(s, bs);
    forall t | t in s'.txToBatch ensures t in TxsOf(s', s'.txToBatch[t]) {
      assert t in TxsOf(s, s.txToBatch[t]);
    }
  }

  lemma PruneKeepsInverse(s: IndexState, cutoff: nat)
    requires Inverse(s)
    ensures Inverse(PruneSpec(s, cutoff))
  {
    WithoutKeepsInverse(s, OldBatches(s, cutoff));
  }

  lemma StepKeepsInverse(s: IndexState, e: Event)
    requires Inverse(s)
    ensures Inverse(Step(s, e))
  {
    match e
    case AddTx(t, b) => AddTxKeepsInverse(s, t, b);
    case AddBatch(batch) => AddAllKeepsInverse(s.(rounds := s.rounds[batch.digest := batch.round]), batch.txs,
      batch.digest);
    case RemoveTxs(b) => WithoutKeepsInverse(s, {b});
    case Prune(cutoff) => PruneKeepsInverse(s, cutoff);
  }

  lemma {:induction false} RunKeepsInverse(es: seq<Event>)
    ensures Inverse(Run(es))
    decreases |es|
  {
    if es != [] {
      RunKeepsInverse(es[..|es| - 1]);
      StepKeepsInverse(Run(es[..|es| - 1]), es[|es| - 1]);
    }
  }

  // ---- Which batch claims a transaction -----------------------------------------------------------------

  ghost predicate Carries(b: Batch, t: Hash) {
    exists i :: 0 <= i < |b.txs| && b.txs[i].hash == t
  }

  // Every indexed transaction is mapped to a batch, among the given ones, that carries it.
  ghost predicate Truthful(s: IndexState, batches: map<Hash, Batch>) {
    forall t :: t in s.txToBatch ==> s.txToBatch[t] in batches && Carries(batches[s.txToBatch[t]], t)
  }

  lemma {:induction false} AddAllMeaning(s: IndexState, txs: seq<Transaction>, b: Hash)
    ensures var s' := AddAllSpec(s, txs, b);
      && s'.rounds == s.rounds
      && (forall t :: t in s.txToBatch ==> t in s'.txToBatch && s'.txToBatch[t] == s.txToBatch[t])
      && (forall t :: t in s'.txToBatch && t !in s.txToBatch ==>
        s'.txToBatch[t] == b && exists i :: 0 <= i < |txs| && txs[i].hash == t)
      && (forall i :: 0 <= i < |txs| ==> txs[i].hash in s'.txToBatch)
    decreases |txs|
  {
    if txs != [] {
      var front := txs[..|txs| - 1];
      AddAllMeaning(s, front, b);
      var s1, s' := AddAllSpec(s, front, b), AddAllSpec(s, txs, b);
      forall t | t in s'.txToBatch && t !in s.txToBatch
        ensures s'.txToBatch[t] == b && exists i :: 0 <= i < |txs| && txs[i].hash == t
      {
        if t in s1.txToBatch {
          var i :| 0 <= i < |front| && front[i].hash == t;
          assert txs[i].hash == t;
        } else {
          assert txs[|txs| - 1].hash == t;
        }
      }
      forall i | 0 <= i < |txs| ensures txs[i].hash in s'.txToBatch {
        assert i < |front| ==> txs[i] == front[i];
      }
    }
  }

  // Indexing a batch keeps the index truthful and covers the whole batch.
  lemma AddBatchTruthful(s: IndexState, batches: map<Hash, Batch>, b: Batch)
    requires Truthful(s, batches) && b.digest in batches && batches[b.digest] == b
    ensures Truthful(AddBatchSpec(s, b), batches)
    ensures forall t :: Carries(b, t) ==> t in AddBatchSpec(s, b).txToBatch
  {
    AddAllMeaning(s.(rounds := s.rounds[b.digest := b.round]), b.txs, b.digest);
  }

  // The index is changed only by indexing, removing and pruning batches of the given ones.
  ghost predicate BatchesOnly(es: seq<Event>, batches: map<Hash, Batch>) {
    forall i :: 0 <= i < |es| ==> !es[i].AddTx? && (es[i].AddBatch? ==>
      es[i].batch.digest in batches && batches[es[i].batch.digest] == es[i].batch)
  }

  // Then every run leaves it truthful.
  lemma {:induction false} RunTruthful(es: seq<Event>, batches: map<Hash, Batch>)
    requires BatchesOnly(es, batches)
    ensures Truthful(Run(es), batches)
    decreases |es|
  {
    if es != [] {
      var before, e := es[..|es| - 1], es[|es| - 1];
      RunTruthful(before, batches);
      if e.AddBatch? {
        AddBatchTruthful(Run(before), batches, e.batch);
      }
    }
  }

  // After any run, taking batches out leaves a transaction indexed exactly when some other batch
  // lists it.
  lemma StillIndexedIff(es: seq<Event>, bs: set<Hash>, t: Hash)
    ensures t in WithoutBatches(Run(es), bs).txToBatch <==> exists b :: b !in bs && t in TxsOf(Run(es), b)
  {
    var s := Run(es);
    RunKeepsInverse(es);
    if b :| b !in bs && t in TxsOf(s, b) {
      var i :| 0 <= i < |s.batchToTxs[b]| && s.batchToTxs[b][i] == t;
      assert t in s.txToBatch && s.txToBatch[t] == b;
    }
  }

  // So when no other batch carries it, it is no longer indexed.
  lemma RemovedIsUnindexed(es: seq<Event>, batches: map<Hash, Batch>, bs: set<Hash>, t: Hash)
    requires BatchesOnly(es, batches) && forall x :: x in batches && Carries(batches[x], t) ==> x in bs
    ensures t !in WithoutBatches(Run(es), bs).txToBatch
  {
    RunTruthful(es, batches);
    var s := Run(es);
    if t in s.txToBatch {
      var x := s.txToBatch[t];
      assert x in batches && Carries(batches[x], t);
      assert x in bs;
    }
  }

  // ---- Which rounds are on record -----------------------------------------------------------------------

  // Event k indexed the batch at round r; since then it was neither indexed again nor pruned.
  ghost predicate RecordedAt(es: seq<Event>, k: nat, b: Hash, r: nat) {
    && k < |es| && es[k].AddBatch? && es[k].batch.digest == b && es[k].batch.round == r
    && forall j :: k < j < |es| ==> !Overrides(es[j], b, r)
  }

  ghost predicate Overrides(e: Event, b: Hash, r: nat) {
    (e.AddBatch? && e.batch.digest == b) || (e.Prune? && r < e.cutoff)
  }

  lemma RecordedSnoc(es: seq<Event>, e: Event, k: nat, b: Hash, r: nat)
    requires k < |es|
    ensures RecordedAt(es + [e], k, b, r) <==> RecordedAt(es, k, b, r) && !Overrides(e, b, r)
  {
    var all := es + [e];
    assert all[k] == es[k] && all[|es|] == e;
    if RecordedAt(all, k, b, r) {
      assert forall j :: k < j < |es| ==> all[j] == es[j];
    }
  }

  // In every run the round on record for a batch is that of its last indexing, unless a pruning past
  // that round came since; removing its transactions leaves it.
  lemma {:induction false} RoundsAreRecorded(es: seq<Event>, b: Hash, r: nat)
    ensures b in Run(es).rounds && Run(es).rounds[b] == r <==> exists k: nat :: RecordedAt(es, k, b, r)
    decreases |es|
  {
    if es != [] {
      var before, e := es[..|es| - 1], es[|es| - 1];
      assert es == before + [e];
      RoundsAreRecorded(before, b, r);
      StepOnRounds(Run(before), e, b, r);
      forall k: nat | k < |before|
        ensures RecordedAt(es, k, b, r) <==> RecordedAt(before, k, b, r) && !Overrides(e, b, r)
      {
        RecordedSnoc(before, e, k, b, r);
      }
      if k: nat :| RecordedAt(before, k, b, r) && !Overrides(e, b, r) {
        assert RecordedAt(es, k, b, r);
      }
      if e.AddBatch? && e.batch.digest == b && e.batch.round == r {
        assert RecordedAt(es, |before|, b, r);
      }
    }
  }

  lemma StepOnRounds(s: IndexState, e: Event, b: Hash, r: nat)
    ensures b in Step(s, e).rounds && Step(s, e).rounds[b] == r <==>
      || (e.AddBatch? && e.batch.digest == b && e.batch.round == r)
      || (b in s.rounds && s.rounds[b] == r && !Overrides(e, b, r))
  {
    if e.AddBatch? {
      AddAllMeaning(s.(rounds := s.rounds[e.batch.digest := e.batch.round]), e.batch.txs, e.batch.digest);
    }
  }

  // So pruning keeps exactly the transactions whose batch is not on record at a round below the
  // cutoff.
  lemma PruneKeepsIff(es: seq<Event>, cutoff: nat, t: Hash)
    ensures t in Run(es + [Prune(cutoff)]).txToBatch <==>
      t in Run(es).txToBatch && forall k: nat, r: nat :: RecordedAt(es, k, Run(es).txToBatch[t], r) ==> r >= cutoff
  {
    var s := Run(es);
    assert (es + [Prune(cutoff)])[..|es|] == es;
    if t in s.txToBatch {
      var b := s.txToBatch[t];
      if b in s.rounds {
        RoundsAreRecorded(es, b, s.rounds[b]);
      }
      forall k: nat, r: nat | RecordedAt(es, k, b, r) ensures b in s.rounds && s.rounds[b] == r {
        RoundsAreRecorded(es, b, r);
      }
    }
  }

  // ---- The program ----------------------------------------------------------------------------------------

  class MemoryTxIndex {
    var txToBatch: map<Hash, Hash>
    var batchToTxs: map<Hash, seq<Hash>>
    var batchRounds: map<Hash, nat>

    ghost function State(): IndexState
      reads this
    {
      IndexState(txToBatch, batchToTxs, batchRounds)
    }

    constructor ()
      ensures State() == IndexState(map[], map[], map[])
    {
      txToBatch, batchToTxs, batchRounds := map[], map[], map[];
    }

    // Refused when another batch already has the transaction.
    method AddTx(t: Hash, b: Hash) returns (ok: bool)
      modifies this
      ensures State() == AddTxSpec(old(State()), t, b)
      ensures ok <==> t in txToBatch && txToBatch[t] == b
    {
      if t in txToBatch {
        return txToBatch[t] == b;
      }
      txToBatch := txToBatch[t := b];
      batchToTxs := batchToTxs[b := (if b in batchToTxs then batchToTxs[b] else []) + [t]];
      return true;
    }

    method AddBatch(batch: Batch)
      modifies this
      ensures State() == AddBatchSpec(old(State()), batch)
    {
      batchRounds := batchRounds[batch.digest := batch.round];
      ghost var start := State();
      for i := 0 to |batch.txs|
        invariant State() == AddAllSpec(start, batch.txs[..i], batch.digest)
      {
        assert batch.txs[..i + 1][..i] == batch.txs[..i];
        var ok := AddTx(batch.txs[i].hash, batch.digest);
      }
      assert batch.txs[..|batch.txs|] == batch.txs;
    }

    method RemoveTxsForBatch(b: Hash)
      requires Inverse(State())
      modifies this
      ensures State() == RemoveSpec(old(State()), b)
    {
      if b in batchToTxs {
        Unindex(b);
      } else {
        RemoveAbsent(State(), b);
      }
    }

    method Unindex(b: Hash)
      requires Inverse(State()) && b in batchToTxs
      modifies this
      ensures State() == RemoveSpec(old(State()), b)
    {
      var txs := batchToTxs[b];
      for i := 0 to |txs|
        invariant batchToTxs == old(batchToTxs) && batchRounds == old(batchRounds)
        invariant txToBatch == old(txToBatch) - Elems(txs[..i])
      {
        assert txs[..i + 1] == txs[..i] + [txs[i]];
        ElemsAppend(txs[..i], [txs[i]]);
        txToBatch := txToBatch - {txs[i]};
      }
      assert txs[..|txs|] == txs;
      batchToTxs := batchToTxs - {b};
      RemovePresent(old(State()), b);
    }

    // Forget the batches of old rounds; returns how many.
    method PruneOlderThan(cutoff: nat) returns (count: nat)
      requires Inverse(State())
      modifies this
      ensures State() == PruneSpec(old(State()), cutoff) && count == |OldBatches(old(State()), cutoff)|
    {
      var left := set b | b in batchRounds && batchRounds[b] < cutoff;
      ghost var gone: set<Hash> := {};
      count := 0;
      WithoutNone(State());
      while left != {}
        invariant left !! gone && left + gone == OldBatches(old(State()), cutoff) && count == |gone|
        invariant State() == WithoutBatches(old(State()), gone).(rounds := old(batchRounds) - gone)
        decreases left
      {
        var b := Pick(left);
        WithoutKeepsInverse(old(State()), gone);
        ghost var before := State();
        RemoveTxsForBatch(b);
        batchRounds := batchRounds - {b};
        WithoutTwice(old(State()), gone, {b});
        count := count + 1;
        left := left - {b};
        gone := gone + {b};
        assert old(batchRounds) - (gone - {b}) - {b} == old(batchRounds) - gone;
      }
    }
  }

  lemma WithoutNone(s: IndexState)
    ensures WithoutBatches(s, {}).(rounds := s.rounds - {}) == s
  {
    assert WithoutBatches(s, {}).txToBatch == s.txToBatch;
    assert s.batchToTxs - {} == s.batchToTxs && s.rounds - {} == s.rounds;
  }

  lemma WithoutTwice(s: IndexState, a: set<Hash>, b: set<Hash>)
    ensures WithoutBatches(WithoutBatches(s, a), b) == WithoutBatches(s, a + b)
  {
    assert WithoutBatches(WithoutBatches(s, a), b).txToBatch == WithoutBatches(s, a + b).txToBatch;
    assert s.batchToTxs - (a + b) == s.batchToTxs - a - b;
  }

  lemma RemoveAbsent(s: IndexState, b: Hash)
    requires Inverse(s) && b !in s.batchToTxs
    ensures RemoveSpec(s, b) == s
  {
    forall t | t in s.txToBatch ensures s.txToBatch[t] != b {
      assert t in TxsOf(s, s.txToBatch[t]);
    }
    assert RemoveSpec(s, b).txToBatch == s.txToBatch;
    assert s.batchToTxs - {b} == s.batchToTxs;
  }

  lemma RemovePresent(s: IndexState, b: Hash)
    requires Inverse(s) && b in s.batchToTxs
    ensures RemoveSpec(s, b).txToBatch == s.txToBatch - Elems(s.batchToTxs[b])
  {
    forall t | t in s.txToBatch ensures t in Elems(s.batchToTxs[b]) <==> s.txToBatch[t] == b {
      assert t in TxsOf(s, s.txToBatch[t]);
    }
  }
}
