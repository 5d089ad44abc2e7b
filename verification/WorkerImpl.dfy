// The worker, as a program.
module WorkerImpl {
  import opened Types
  import opened Lists
  import opened Heap
  import opened Worker

  class BatchWorker {
    const lim: Limits
    var pending: PriorityQueue
    var pendingSet: set<Hash>
    var pendingBytes: int
    var pendingSeq: nat

    // The heap's shape; what it says of the pool is in State().
    ghost predicate Valid()
      reads this, pending
    {
      HeapOrdered(pending.q) && NoDup(pending.q)
    }

    ghost function State(): PoolState
      reads this, pending
    {
      PoolState(Elems(pending.q), pendingSet, pendingBytes, pendingSeq)
    }

    constructor (lim: Limits)
      ensures this.lim == lim && fresh(pending) && Valid() && State() == PoolState({}, {}, 0, 0)
    {
      this.lim := lim;
      pending := new PriorityQueue();
      pendingSet, pendingBytes, pendingSeq := {}, 0, 0;
    }

    // Given the validator's priority and the hashes already indexed in a batch.
    method AddTx(tx: Transaction, priority: int, indexed: set<Hash>) returns (r: AddOutcome)
      requires Valid() && Sound(lim, State())
      modifies this, pending
      ensures Valid() && pending == old(pending)
      ensures r == AddOutcomeOf(lim, old(State()), tx, indexed)
      ensures State() == AddSpec(lim, old(State()), tx, priority, indexed)
    {
      NoDupCardinality(pending.q);
      if tx.hash in pendingSet {
        return Pending;
      }
      if tx.hash in indexed {
        return Batched;
      }
      if |pending.q| >= lim.maxTxs {
        return Backpressure;
      }
      if pendingBytes + tx.size > lim.maxBytes {
        return Backpressure;
      }
      Insert(tx, priority);
      return Admitted;
    }

    method Insert(tx: Transaction, priority: int)
      requires Valid() && forall e :: e in Elems(pending.q) ==> e.sequence <= pendingSeq
      modifies this, pending
      ensures Valid() && pending == old(pending) && State() == Admit(old(State()), tx, priority)
    {
      pendingSeq := pendingSeq + 1;
      var e := Entry(tx, priority, pendingSeq);
      assert e !in pending.q by {
        assert e !in Elems(pending.q);
      }
      pending.Push(e);
      pendingSet := pendingSet + {tx.hash};
      pendingBytes := pendingBytes + tx.size;
    }

    // Cut the longest prefix of the ranking that fits; when it cannot be saved, put it back.
    method TryCreateBatch(saved: bool) returns (batch: Option<seq<Transaction>>)
      requires Valid() && Sound(lim, State())
      modifies this, pending
      ensures Valid() && pending == old(pending)
      ensures State() == BatchSpec(lim, old(State()), saved)
      ensures batch == if old(pending.q) == [] || !saved then None else Some(TxList(CutSpec(lim, old(State()).entries)))
    {
      if |pending.q| == 0 {
        return None;
      }
      assert pending.q[0] in State().entries;
      ghost var out;
      var txs;
      txs, out := CutBatch();
      if !saved {
        CutIsFromPool(lim, old(State()).entries);
        TakeKeepsSound(lim, old(State()), out);
        Requeue(txs);
        return None;
      }
      return Some(txs);
    }

    method CutBatch() returns (txs: seq<Transaction>, ghost out: seq<Entry>)
      requires Valid() && Sound(lim, State()) && pending.q != []
      modifies this, pending
      ensures Valid() && pending == old(pending)
      ensures out == CutSpec(lim, old(State()).entries) && txs == TxList(out)
      ensures State() == TakeSpec(old(State()), out)
    {
      ghost var start := State();
      CuttingStart(lim, start);
      NoDupCardinality(pending.q);
      var batchBytes;
      txs, batchBytes, out := TakeAll(start);
      pendingBytes := pendingBytes - batchBytes;
    }

    method TakeAll(ghost start: PoolState) returns (txs: seq<Transaction>, batchBytes: nat, ghost out: seq<Entry>)
      requires Taking(start, []) && |pending.q| == |start.entries|
      modifies this, pending
      ensures pending == old(pending) && Taking(start, out)
      ensures out == CutSpec(lim, start.entries) && txs == TxList(out) && batchBytes == SizeOf(out)
    {
      var maxCount := if lim.batchSize > |pending.q| then |pending.q| else lim.batchSize;
      txs, out, batchBytes := [], [], 0;
      while |txs| < maxCount
        invariant pending == old(pending) && |txs| <= maxCount && |pending.q| + |out| == |start.entries|
        invariant txs == TxList(out) && batchBytes == SizeOf(out) && Taking(start, out)
        decreases maxCount - |txs|
      {
        var e := TakeTop(start, out, |txs|, batchBytes);
        if e.None? {
          return;
        }
        txs := txs + [e.value.tx];
        batchBytes := batchBytes + e.value.tx.size;
        out := out + [e.value];
      }
      CuttingDone(lim, start, out, Elems(pending.q), pendingSet);
    }

    // Partway through a cut; the byte counter is settled at the end.
    ghost predicate Taking(start: PoolState, out: seq<Entry>)
      reads this, pending
    {
      && Valid() && DistinctSequences(start.entries) && pendingBytes == start.bytes && pendingSeq == start.last
      && Cutting(lim, start, out, Elems(pending.q), pendingSet)
    }

    // Take the top entry, unless it would break the byte cap.
    method TakeTop(ghost start: PoolState, ghost out: seq<Entry>, count: nat, bytes: nat) returns (e: Option<Entry>)
      requires Taking(start, out) && pending.q != [] && count == |out| < lim.batchSize && bytes == SizeOf(out)
      modifies this, pending
      ensures pending == old(pending)
      ensures e.None? ==> pending.q == old(pending.q) && Taking(start, out) && out == CutSpec(lim, start.entries)
      ensures e.Some? ==>
        |pending.q| == |old(pending.q)| - 1 && Taking(start, out + [e.value])
          && SizeOf(out + [e.value]) == bytes + e.value.tx.size
    {
      var top := pending.q[0];
      CuttingTop(lim, start, out, pending.q, pendingSet);
      if lim.batchBytes > 0 && count > 0 && bytes + top.tx.size > lim.batchBytes {
        CutHere(lim, Ranking(start.entries), out, top);
        return None;
      }
      var popped := pending.Pop();
      pendingSet := pendingSet - {popped.tx.hash};
      e := Some(popped);
    }

    method Requeue(txs: seq<Transaction>)
      requires Valid() && Sound(lim, State())
      modifies this, pending
      ensures Valid() && pending == old(pending) && State() == RequeueSpec(lim, old(State()), txs)
    {
      for i := 0 to |txs|
        invariant Valid() && pending == old(pending) && Sound(lim, State())
        invariant RequeueSpec(lim, State(), txs[i..]) == RequeueSpec(lim, old(State()), txs)
      {
        var tx := txs[i];
        assert txs[i..][0] == tx && txs[i..][1..] == txs[i + 1..];
        NoDupCardinality(pending.q);
        if tx.hash !in pendingSet {
          if |pending.q| >= lim.maxTxs || pendingBytes + tx.size > lim.maxBytes {
            return;
          }
          AdmitKeepsSound(lim, State(), tx, 0);
          Insert(tx, 0);
        }
      }
    }

    // Every pending transaction, once, in no particular order.
    method DrainPending() returns (txs: seq<Transaction>)
      requires Valid() && Sound(lim, State())
      modifies this
      ensures Valid() && State() == PoolState({}, {}, 0, old(pendingSeq))
      ensures Elems(txs) == Txs(old(State()).entries) && NoDup(txs)
    {
      txs := [];
      var q := pending.q;
      for i := 0 to |q|
        invariant txs == TxList(q[..i])
      {
        txs := txs + [q[i].tx];
      }
      assert txs == TxList(q);
      DrainedTxs(q);
      if |pending.q| > 0 {
        pending := new PriorityQueue();
        pendingSet, pendingBytes := {}, 0;
      }
    }
  }

  lemma DrainedTxs(q: seq<Entry>)
    requires NoDup(q) && DistinctHashes(Elems(q))
    ensures Elems(TxList(q)) == Txs(Elems(q)) && NoDup(TxList(q))
  {
    var txs := TxList(q);
    assert forall i :: 0 <= i < |q| ==> q[i] in Elems(q) && txs[i] == q[i].tx;
    forall tx | tx in Txs(Elems(q)) ensures tx in Elems(txs) {
      var e :| e in Elems(q) && e.tx == tx;
      var i :| 0 <= i < |q| && q[i] == e;
      assert txs[i] == tx;
    }
    forall i, j | 0 <= i < j < |q| ensures txs[i] != txs[j] {
      assert q[i] != q[j];
    }
  }

  // Partway through a cut: out has been taken off the front of the ranking.
  ghost predicate Cutting(lim: Limits, start: PoolState, out: seq<Entry>, entries: set<Entry>, hashes: set<Hash>) {
    && entries == TakeSpec(start, out).entries && hashes == TakeSpec(start, out).hashes
    && out + Ranking(entries) == Ranking(start.entries) && Fits(lim, out)
  }

  lemma CuttingStart(lim: Limits, start: PoolState)
    ensures Cutting(lim, start, [], start.entries, start.hashes)
  {
    assert [] + Ranking(start.entries) == Ranking(start.entries);
    assert TakeSpec(start, []).entries == start.entries && TakeSpec(start, []).hashes == start.hashes;
  }

  // The top of the heap is the next entry of the ranking, and taking it keeps the cut going.
  lemma CuttingTop(lim: Limits, start: PoolState, out: seq<Entry>, q: seq<Entry>, hashes: set<Hash>)
    requires Cutting(lim, start, out, Elems(q), hashes) && DistinctSequences(start.entries) && HeapOrdered(q) && q != []
    ensures out + [q[0]] <= Ranking(start.entries)
    ensures SizeOf(out + [q[0]]) == SizeOf(out) + q[0].tx.size
    ensures Fits(lim, out + [q[0]]) ==> Cutting(lim, start, out + [q[0]], Elems(q) - {q[0]}, hashes - {q[0].tx.hash})
  {
    var e := q[0];
    TopIsFirst(q, start.entries);
    TakeOne(start, out, e);
    assert out + [e] + Ranking(Elems(q) - {e}) == out + ([e] + Ranking(Elems(q) - {e}));
  }

  lemma CuttingDone(lim: Limits, start: PoolState, out: seq<Entry>, entries: set<Entry>, hashes: set<Hash>)
    requires Cutting(lim, start, out, entries, hashes) && (|out| == lim.batchSize || |out| >= |start.entries|)
    ensures out == CutSpec(lim, start.entries)
  {
    RankingElems(start.entries);
    CutFull(lim, Ranking(start.entries), out);
  }

  // The top of the heap is the first entry of the ranking.
  lemma TopIsFirst(q: seq<Entry>, all: set<Entry>)
    requires HeapOrdered(q) && q != [] && Elems(q) <= all && DistinctSequences(all)
    ensures Ranking(Elems(q)) == [q[0]] + Ranking(Elems(q) - {q[0]})
  {
    forall x | x in Elems(q) ensures !Before(x, q[0]) {
      var i :| 0 <= i < |q| && q[i] == x;
      RootIsFirst(q, i);
    }
    assert q[0] in Elems(q);
    FirstIsUnique(Elems(q), q[0]);
  }

  lemma TakeOne(p: PoolState, out: seq<Entry>, e: Entry)
    ensures TakeSpec(p, out + [e]).entries == TakeSpec(p, out).entries - {e}
    ensures TakeSpec(p, out + [e]).hashes == TakeSpec(p, out).hashes - {e.tx.hash}
    ensures SizeOf(out + [e]) == SizeOf(out) + e.tx.size
  {
    ElemsAppend(out, [e]);
    assert Hashes(Elems(out) + {e}) == Hashes(Elems(out)) + {e.tx.hash};
    assert (out + [e])[..|out|] == out;
  }

  lemma CutHere(lim: Limits, listing: seq<Entry>, out: seq<Entry>, next: Entry)
    requires out + [next] <= listing && Fits(lim, out) && out != [] && lim.batchBytes > 0
      && SizeOf(out) + next.tx.size > lim.batchBytes
    ensures listing[..Longest(lim, listing, |listing|)] == out
  {
    var m := |out|;
    assert listing[..m] == out && listing[..m + 1] == out + [next];
    assert SizeOf(out + [next]) == SizeOf(out) + next.tx.size by { assert (out + [next])[..m] == out; }
    forall j | m < j <= |listing| ensures !Fits(lim, listing[..j]) {
      FitsDownward(lim, listing, m, j);
    }
    LongestIs(lim, listing, |listing|, m);
  }

  lemma CutFull(lim: Limits, listing: seq<Entry>, out: seq<Entry>)
    requires out <= listing && Fits(lim, out) && (|out| == lim.batchSize || |out| == |listing|)
    ensures listing[..Longest(lim, listing, |listing|)] == out
  {
    forall j | |out| < j <= |listing| ensures !Fits(lim, listing[..j]) {
      FitsDownward(lim, listing, |out|, j);
    }
    assert listing[..|out|] == out;
    LongestIs(lim, listing, |listing|, |out|);
  }
}
