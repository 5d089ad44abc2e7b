// Which transactions a worker cuts into a batch, and where its pending entries come from
// (worker/worker.go).
module Selection {
  import opened Types
  import opened Lists
  import opened Heap
  import opened Worker

  // ---- The cut --------------------------------------------------------------------------------------------

  // The order of the ranking, in the entries' fields.
  lemma RankingByFields(s: set<Entry>)
    requires DistinctSequences(s)
    ensures forall i, j :: 0 <= i < j < |Ranking(s)| ==> var a, b := Ranking(s)[i], Ranking(s)[j];
      a.priority > b.priority || (a.priority == b.priority && a.sequence < b.sequence)
  {
    RankingMeaning(s);
  }

  // Every entry taken has a higher priority than every entry left, or an equal one and arrived
  // earlier.
  lemma CutOutranks(lim: Limits, s: set<Entry>, a: Entry, b: Entry)
    requires DistinctSequences(s) && a in CutSpec(lim, s) && b in s - Elems(CutSpec(lim, s))
    ensures a.priority > b.priority || (a.priority == b.priority && a.sequence < b.sequence)
  {
    var listing, out := Ranking(s), CutSpec(lim, s);
    RankingMeaning(s);
    RankingByFields(s);
    var i :| 0 <= i < |out| && out[i] == a;
    assert b in Elems(listing);
    var j :| 0 <= j < |listing| && listing[j] == b;
    assert forall k :: 0 <= k < |out| ==> out[k] == listing[k] && out[k] in Elems(out);
    assert j >= |out|;
  }

  lemma LongestStops(lim: Limits, listing: seq<Entry>)
    ensures var m := Longest(lim, listing, |listing|);
      Fits(lim, listing[..m]) && (m < |listing| ==> !Fits(lim, listing[..m + 1]))
  {
    var m := Longest(lim, listing, |listing|);
    assert Fits(lim, listing[..0]);
    LongestAtLeast(lim, listing, |listing|, 0);
    if m < |listing| && Fits(lim, listing[..m + 1]) {
      LongestAtLeast(lim, listing, |listing|, m + 1);
    }
  }

  // The cut keeps to both caps, a single transaction of any size excepted, and stops only where the
  // entry that comes next would break one.
  lemma CutFills(lim: Limits, s: set<Entry>)
    ensures var out, listing := CutSpec(lim, s), Ranking(s);
      && out <= listing && |listing| == |s| && |out| <= lim.batchSize
      && (lim.batchBytes > 0 && |out| > 1 ==> SizeOf(out) <= lim.batchBytes)
      && (|out| < |s| ==>
            || |out| == lim.batchSize
            || (lim.batchBytes > 0 && |out| > 0 && SizeOf(out) + listing[|out|].tx.size > lim.batchBytes))
  {
    RankingElems(s);
    LongestStops(lim, Ranking(s));
    CutStops(lim, Ranking(s), CutSpec(lim, s));
  }

  lemma CutStops(lim: Limits, listing: seq<Entry>, out: seq<Entry>)
    requires out <= listing && Fits(lim, out) && (|out| < |listing| ==> !Fits(lim, listing[..|out| + 1]))
    ensures |out| <= lim.batchSize && (lim.batchBytes > 0 && |out| > 1 ==> SizeOf(out) <= lim.batchBytes)
    ensures |out| < |listing| ==>
      || |out| == lim.batchSize
      || (lim.batchBytes > 0 && |out| > 0 && SizeOf(out) + listing[|out|].tx.size > lim.batchBytes)
  {
    if |out| < |listing| {
      assert listing[..|out| + 1][..|out|] == out;
    }
  }

  // ---- Admission ------------------------------------------------------------------------------------------

  // A transaction is admitted exactly when it is neither pending nor batched and the pool stays
  // within both limits with it; then it is pending with the priority given, behind all others of
  // that priority.
  lemma AdmittedIff(lim: Limits, p: PoolState, tx: Transaction, priority: int, indexed: set<Hash>)
    requires Sound(lim, p)
    ensures AddOutcomeOf(lim, p, tx, indexed) == Admitted <==>
      tx.hash !in Hashes(p.entries) + indexed && |p.entries| + 1 <= lim.maxTxs
      && TotalSize(p.entries) + tx.size <= lim.maxBytes
    ensures AddOutcomeOf(lim, p, tx, indexed) == Admitted ==>
      exists e :: AddSpec(lim, p, tx, priority, indexed).entries == p.entries + {e} && e !in p.entries
        && e.tx == tx && e.priority == priority && forall x :: x in p.entries ==> x.sequence < e.sequence
    ensures AddOutcomeOf(lim, p, tx, indexed) != Admitted ==> AddSpec(lim, p, tx, priority, indexed) == p
  {
    if AddOutcomeOf(lim, p, tx, indexed) == Admitted {
      var e := Entry(tx, priority, p.last + 1);
      assert AddSpec(lim, p, tx, priority, indexed).entries == p.entries + {e} && e !in p.entries;
    }
  }

  // ---- Where entries come from -------------------------------------------------------------------------------

  // Event i put the entry in the pool: it was added with its priority, or put back with priority 0
  // by a batch that could not be saved.  Sequence numbers follow the events.
  ghost predicate PutAt(lim: Limits, es: seq<Event>, i: nat, e: Entry)
    requires i < |es|
  {
    var before := Run(lim, es[..i]);
    && before.last < e.sequence <= Step(lim, before, es[i]).last
    && match es[i]
       case Add(tx, priority, indexed) => e.tx == tx && e.priority == priority
       case Batch(saved) => !saved && e.priority == 0 && e.tx in Txs(before.entries)
       case Drain => false
  }

  lemma {:induction false} RequeuePuts(lim: Limits, p: PoolState, txs: seq<Transaction>)
    ensures var p' := RequeueSpec(lim, p, txs);
      && p.last <= p'.last
      && forall e :: e in p'.entries && e !in p.entries ==>
        p.last < e.sequence <= p'.last && e.priority == 0 && e.tx in txs
    decreases |txs|
  {
    if txs != [] {
      if txs[0].hash in p.hashes {
        RequeuePuts(lim, p, txs[1..]);
      } else if !Full(lim, p, txs[0]) {
        RequeuePuts(lim, Admit(p, txs[0], 0), txs[1..]);
      }
    }
  }

  // An event puts new entries above the sequence numbers used so far.
  lemma StepPuts(lim: Limits, p: PoolState, ev: Event)
    requires DistinctSequences(p.entries)
    ensures var p' := Step(lim, p, ev);
      && p.last <= p'.last
      && forall e :: e in p'.entries && e !in p.entries ==>
        && p.last < e.sequence <= p'.last
        && match ev
           case Add(tx, priority, indexed) => e.tx == tx && e.priority == priority
           case Batch(saved) => !saved && e.priority == 0 && e.tx in Txs(p.entries)
           case Drain => false
  {
    if ev.Batch? && !ev.saved && p.entries != {} {
      var out := CutSpec(lim, p.entries);
      RequeuePuts(lim, TakeSpec(p, out), TxList(out));
      CutIsFromPool(lim, p.entries);
      forall tx | tx in TxList(out) ensures tx in Txs(p.entries) {
        var i :| 0 <= i < |TxList(out)| && TxList(out)[i] == tx;
        assert out[i] in Elems(out);
      }
    }
  }

  // In every run each pending entry was put there by one event, with the transaction and priority
  // that event gives it.
  lemma {:induction false} EntriesWerePut(lim: Limits, es: seq<Event>, e: Entry) returns (i: nat)
    requires e in Run(lim, es).entries
    ensures i < |es| && PutAt(lim, es, i, e)
    decreases |es|
  {
    assert es != [];
    var before, ev := es[..|es| - 1], es[|es| - 1];
    RunKeepsSound(lim, before);
    StepPuts(lim, Run(lim, before), ev);
    if e in Run(lim, before).entries {
      i := EntriesWerePut(lim, before, e);
      assert before[..i] == es[..i];
    } else {
      i := |es| - 1;
    }
  }

  lemma {:induction false} LastGrows(lim: Limits, es: seq<Event>, i: nat, j: nat)
    requires i <= j <= |es|
    ensures Run(lim, es[..i]).last <= Run(lim, es[..j]).last
    decreases j
  {
    if i < j {
      LastGrows(lim, es, i, j - 1);
      assert es[..j][..j - 1] == es[..j - 1];
      RunKeepsSound(lim, es[..j - 1]);
      StepPuts(lim, Run(lim, es[..j - 1]), es[j - 1]);
    }
  }

  // So among entries of one priority those put in the pool by earlier events are cut first.
  lemma EarlierIsCutFirst(lim: Limits, es: seq<Event>, a: Entry, b: Entry, i: nat, j: nat)
    requires a in Run(lim, es).entries && b in Run(lim, es).entries && a.priority == b.priority
    requires i < j < |es| && PutAt(lim, es, i, a) && PutAt(lim, es, j, b)
    ensures b in CutSpec(lim, Run(lim, es).entries) ==> a in CutSpec(lim, Run(lim, es).entries)
  {
    var s := Run(lim, es).entries;
    RunKeepsSound(lim, es);
    assert es[..i + 1][..i] == es[..i];
    LastGrows(lim, es, i + 1, j);
    assert a.sequence < b.sequence;
    if b in CutSpec(lim, s) && a !in CutSpec(lim, s) {
      assert a in s - Elems(CutSpec(lim, s));
      CutOutranks(lim, s, b, a);
    }
  }
}
