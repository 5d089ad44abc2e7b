// A worker's pool of pending transactions and the batches it cuts (worker/worker.go).
module Worker {
  import opened Types
  import opened Lists
  import opened Heap

  // A batchBytes of zero means no byte cap.
  datatype Limits = Limits(batchSize: nat, batchBytes: nat, maxTxs: nat, maxBytes: nat)

  datatype PoolState = PoolState(entries: set<Entry>, hashes: set<Hash>, bytes: int, last: nat)

  // ---- Ranking ----------------------------------------------------------------------------------

  ghost predicate DistinctSequences(s: set<Entry>) {
    forall a, b :: a in s && b in s && a.sequence == b.sequence ==> a == b
  }

  ghost predicate IsFirst(s: set<Entry>, e: Entry) {
    e in s && forall x :: x in s ==> !Before(x, e)
  }

  lemma {:induction false} FirstExists(s: set<Entry>)
    requires s != {}
    ensures exists e :: IsFirst(s, e)
    decreases |s|
  {
    var x :| x in s;
    if s == {x} {
      assert IsFirst(s, x);
    } else {
      var rest := s - {x};
      assert rest != {};
      FirstExists(rest);
      var y :| IsFirst(rest, y);
      forall z | z in s ensures z == x || !Before(z, y) {
        assert z == x || z in rest;
      }
      assert IsFirst(s, if Before(x, y) then x else y);
    }
  }

  ghost function First(s: set<Entry>): Entry
    requires s != {}
  {
    FirstExists(s);
    var e :| IsFirst(s, e);
    e
  }

  // All entries, highest priority first and in arrival order among equals.
  ghost function Ranking(s: set<Entry>): seq<Entry>
    decreases |s|
  {
    if s == {} then [] else [First(s)] + Ranking(s - {First(s)})
  }

  lemma FirstIsUnique(s: set<Entry>, e: Entry)
    requires IsFirst(s, e) && DistinctSequences(s)
    ensures e == First(s)
  {
    assert IsFirst(s, First(s));
  }

  lemma {:induction false} RankingElems(s: set<Entry>)
    ensures Elems(Ranking(s)) == s && |Ranking(s)| == |s|
    decreases |s|
  {
    if s != {} {
      var e := First(s);
      assert IsFirst(s, e);
      RankingElems(s - {e});
      ElemsAppend([e], Ranking(s - {e}));
      assert Elems([e]) + (s - {e}) == s;
    }
  }

  // The ranking lists every entry once, each before all that follow.
  lemma {:induction false} RankingMeaning(s: set<Entry>)
    requires DistinctSequences(s)
    ensures Elems(Ranking(s)) == s && |Ranking(s)| == |s|
    ensures forall i, j :: 0 <= i < j < |Ranking(s)| ==> Before(Ranking(s)[i], Ranking(s)[j])
    decreases |s|
  {
    RankingElems(s);
    if s != {} {
      var e := First(s);
      assert IsFirst(s, e);
      RankingMeaning(s - {e});
      FirstBeforeRest(s, e, Ranking(s - {e}));
    }
  }

  lemma FirstBeforeRest(s: set<Entry>, e: Entry, rest: seq<Entry>)
    requires DistinctSequences(s) && IsFirst(s, e) && Elems(rest) == s - {e}
    ensures forall j :: 0 <= j < |rest| ==> Before(e, rest[j])
  {
    forall j | 0 <= j < |rest| ensures Before(e, rest[j]) {
      assert rest[j] in Elems(rest);
      assert rest[j] in s && rest[j] != e;
    }
  }

  // ---- Sizes --------------------------------------------------------------------------------------

  ghost function TotalSize(s: set<Entry>): nat
    decreases |s|
  {
    if s == {} then 0 else var e :| e in s; e.tx.size + TotalSize(s - {e})
  }

  lemma {:induction false} TotalWithout(s: set<Entry>, e: Entry)
    requires e in s
    ensures TotalSize(s) == e.tx.size + TotalSize(s - {e})
    decreases |s|
  {
    var x :| x in s && TotalSize(s) == x.tx.size + TotalSize(s - {x});
    if x != e {
      TotalWithout(s - {x}, e);
      TotalWithout(s - {e}, x);
      assert s - {x} - {e} == s - {e} - {x};
    }
  }

  lemma TotalWith(s: set<Entry>, e: Entry)
    requires e !in s
    ensures TotalSize(s + {e}) == TotalSize(s) + e.tx.size
  {
    TotalWithout(s + {e}, e);
    assert s + {e} - {e} == s;
  }

  // The bytes of a list of entries.
  ghost function SizeOf(es: seq<Entry>): nat {
    if es == [] then 0 else SizeOf(es[..|es| - 1]) + es[|es| - 1].tx.size
  }

  lemma {:induction false} SizeMono(es: seq<Entry>, k: nat)
    requires k <= |es|
    ensures SizeOf(es[..k]) <= SizeOf(es)
    decreases |es|
  {
    if k == |es| {
      assert es[..k] == es;
    } else {
      SizeMono(es[..|es| - 1], k);
      assert es[..|es| - 1][..k] == es[..k];
    }
  }

  // ---- Batches --------------------------------------------------------------------------------------

  // The count and byte caps; a single transaction always fits the byte cap.
  ghost predicate Fits(lim: Limits, es: seq<Entry>) {
    |es| <= lim.batchSize && (lim.batchBytes == 0 || |es| <= 1 || SizeOf(es) <= lim.batchBytes)
  }

  // The length of the longest prefix, of at most k entries, that fits.
  ghost function Longest(lim: Limits, listing: seq<Entry>, k: nat): (m: nat)
    requires k <= |listing|
    ensures m <= k
  {
    if k == 0 || Fits(lim, listing[..k]) then k else Longest(lim, listing, k - 1)
  }

  ghost function CutSpec(lim: Limits, s: set<Entry>): seq<Entry> {
    var listing := Ranking(s);
    listing[..Longest(lim, listing, |listing|)]
  }

  lemma {:induction false} LongestIs(lim: Limits, listing: seq<Entry>, k: nat, m: nat)
    requires m <= k <= |listing| && Fits(lim, listing[..m]) && forall j :: m < j <= k ==> !Fits(lim, listing[..j])
    ensures Longest(lim, listing, k) == m
  {
    if k > m {
      LongestIs(lim, listing, k - 1, m);
    }
  }

  // Once a prefix does not fit, no longer one does.
  lemma FitsDownward(lim: Limits, listing: seq<Entry>, m: nat, j: nat)
    requires m < j <= |listing|
    requires m == lim.batchSize || (m > 0 && lim.batchBytes > 0 && SizeOf(listing[..m + 1]) > lim.batchBytes)
    ensures !Fits(lim, listing[..j])
  {
    SizeMono(listing[..j], m + 1);
    assert listing[..j][..m + 1] == listing[..m + 1];
  }

  // A batch has at least one transaction whenever there is one to take.
  lemma CutIsProductive(lim: Limits, s: set<Entry>)
    requires s != {} && lim.batchSize > 0
    ensures CutSpec(lim, s) != []
  {
    var listing := Ranking(s);
    assert |listing| >= 1 && Fits(lim, listing[..1]);
    LongestAtLeast(lim, listing, |listing|, 1);
  }

  lemma {:induction false} LongestAtLeast(lim: Limits, listing: seq<Entry>, k: nat, m: nat)
    requires m <= k <= |listing| && Fits(lim, listing[..m])
    ensures m <= Longest(lim, listing, k) <= k && Fits(lim, listing[..Longest(lim, listing, k)])
  {
    if !Fits(lim, listing[..k]) {
      LongestAtLeast(lim, listing, k - 1, m);
    }
  }

  // ---- Specification of the pool ----------------------------------------------------------------

  datatype AddOutcome = Admitted | Pending | Batched | Backpressure

  ghost function Hashes(s: set<Entry>): set<Hash> { set e | e in s :: e.tx.hash }

  ghost function Txs(s: set<Entry>): set<Transaction> { set e | e in s :: e.tx }

  function TxList(es: seq<Entry>): seq<Transaction> {
    seq(|es|, i requires 0 <= i < |es| => es[i].tx)
  }

  ghost predicate Full(lim: Limits, p: PoolState, tx: Transaction) {
    |p.entries| >= lim.maxTxs || p.bytes + tx.size > lim.maxBytes
  }

  ghost function AddOutcomeOf(lim: Limits, p: PoolState, tx: Transaction, indexed: set<Hash>): AddOutcome {
    if tx.hash in p.hashes then Pending
    else if tx.hash in indexed then Batched
    else if Full(lim, p, tx) then Backpressure
    else Admitted
  }

  ghost function Admit(p: PoolState, tx: Transaction, priority: int): PoolState {
    PoolState(p.entries + {Entry(tx, priority, p.last + 1)}, p.hashes + {tx.hash}, p.bytes + tx.size, p.last + 1)
  }

  ghost function AddSpec(lim: Limits, p: PoolState, tx: Transaction, priority: int, indexed: set<Hash>): PoolState {
    if AddOutcomeOf(lim, p, tx, indexed) == Admitted then Admit(p, tx, priority) else p
  }

  ghost function TakeSpec(p: PoolState, out: seq<Entry>): PoolState {
    PoolState(p.entries - Elems(out), p.hashes - Hashes(Elems(out)), p.bytes - SizeOf(out), p.last)
  }

  // Put transactions back at priority zero, giving up when the pool is full.
  ghost function RequeueSpec(lim: Limits, p: PoolState, txs: seq<Transaction>): PoolState
    decreases |txs|
  {
    if txs == [] then p
    else if txs[0].hash in p.hashes then RequeueSpec(lim, p, txs[1..])
    else if Full(lim, p, txs[0]) then p
    else RequeueSpec(lim, Admit(p, txs[0], 0), txs[1..])
  }

  ghost function BatchSpec(lim: Limits, p: PoolState, saved: bool): PoolState {
    var out := CutSpec(lim, p.entries);
    if p.entries == {} then p
    else if saved then TakeSpec(p, out)
    else RequeueSpec(lim, TakeSpec(p, out), TxList(out))
  }

  datatype Event = Add(tx: Transaction, priority: int, indexed: set<Hash>) | Batch(saved: bool) | Drain

  ghost function Step(lim: Limits, p: PoolState, e: Event): PoolState {
    match e
    case Add(tx, priority, indexed) => AddSpec(lim, p, tx, priority, indexed)
    case Batch(saved) => BatchSpec(lim, p, saved)
    case Drain => PoolState({}, {}, 0, p.last)
  }

  ghost function Run(lim: Limits, es: seq<Event>): PoolState {
    if es == [] then PoolState({}, {}, 0, 0) else Step(lim, Run(lim, es[..|es| - 1]), es[|es| - 1])
  }

  // ---- The invariant -------------------------------------------------------------------------------

  ghost predicate DistinctHashes(s: set<Entry>) {
    forall a, b :: a in s && b in s && a.tx.hash == b.tx.hash ==> a == b
  }

  // The hash set, the byte counter and the heap describe the same duplicate-free pool, within
  // both limits.
  ghost predicate Sound(lim: Limits, p: PoolState) {
    && DistinctSequences(p.entries) && DistinctHashes(p.entries)
      && (forall e :: e in p.entries ==> e.sequence <= p.last)
    && p.hashes == Hashes(p.entries) && p.bytes == TotalSize(p.entries)
    && |p.entries| <= lim.maxTxs && p.bytes <= lim.maxBytes
  }

  lemma AdmitKeepsSound(lim: Limits, p: PoolState, tx: Transaction, priority: int)
    requires Sound(lim, p) && tx.hash !in p.hashes && !Full(lim, p, tx)
    ensures Sound(lim, Admit(p, tx, priority))
    ensures Txs(Admit(p, tx, priority).entries) == Txs(p.entries) + {tx}
    ensures |Admit(p, tx, priority).entries| == |p.entries| + 1
  {
    var e := Entry(tx, priority, p.last + 1);
    assert e !in p.entries;
    TotalWith(p.entries, e);
    AdmitDistinct(p.entries, e);
    AdmitSets(p.entries, e);
  }

  lemma AdmitDistinct(s: set<Entry>, e: Entry)
    requires DistinctSequences(s) && DistinctHashes(s) && e.tx.hash !in Hashes(s)
      && forall x :: x in s ==> x.sequence < e.sequence
    ensures DistinctSequences(s + {e}) && DistinctHashes(s + {e})
  {
    assert forall x :: x in s ==> x.tx.hash in Hashes(s);
  }

  lemma AdmitSets(s: set<Entry>, e: Entry)
    ensures Hashes(s + {e}) == Hashes(s) + {e.tx.hash} && Txs(s + {e}) == Txs(s) + {e.tx}
  {
    assert e in s + {e};
  }

  lemma {:induction false} SizeIsTotal(out: seq<Entry>)
    requires NoDup(out)
    ensures SizeOf(out) == TotalSize(Elems(out)) && |Elems(out)| == |out|
    decreases |out|
  {
    if out != [] {
      var front, e := out[..|out| - 1], out[|out| - 1];
      SizeIsTotal(front);
      assert out == front + [e];
      ElemsAppend(front, [e]);
      assert e !in Elems(front);
      TotalWith(Elems(front), e);
      assert Elems(out) == Elems(front) + {e};
    }
  }

  lemma {:induction false} TotalSplit(s: set<Entry>, t: set<Entry>)
    requires t <= s
    ensures TotalSize(s) == TotalSize(t) + TotalSize(s - t)
    decreases |t|
  {
    if t == {} {
      assert s - t == s;
    } else {
      var e :| e in t;
      TotalWithout(s, e);
      TotalWithout(t, e);
      TotalSplit(s - {e}, t - {e});
      assert s - {e} - (t - {e}) == s - t;
    }
  }

  lemma TakeKeepsSound(lim: Limits, p: PoolState, out: seq<Entry>)
    requires Sound(lim, p) && NoDup(out) && Elems(out) <= p.entries
    ensures Sound(lim, TakeSpec(p, out))
    ensures |TakeSpec(p, out).entries| == |p.entries| - |out|
  {
    var p', gone := TakeSpec(p, out), Elems(out);
    SizeIsTotal(out);
    TotalSplit(p.entries, gone);
    assert p.entries == p'.entries + gone;
    assert |p.entries| == |p'.entries| + |gone|;
    TakeHashes(p.entries, gone);
  }

  lemma TakeHashes(s: set<Entry>, gone: set<Entry>)
    requires DistinctHashes(s) && gone <= s
    ensures Hashes(s) - Hashes(gone) == Hashes(s - gone)
  {
    forall h ensures h in Hashes(s) - Hashes(gone) <==> h in Hashes(s - gone) {
    }
  }

  // The cut lists distinct entries of the pool.
  lemma CutIsFromPool(lim: Limits, s: set<Entry>)
    requires DistinctSequences(s)
    ensures NoDup(CutSpec(lim, s)) && Elems(CutSpec(lim, s)) <= s
  {
    RankingMeaning(s);
    var listing := Ranking(s);
    assert forall i, j :: 0 <= i < j < |listing| ==> Before(listing[i], listing[j]);
    assert forall i, j :: 0 <= i < j < |listing| ==> listing[i] != listing[j];
    assert forall x :: x in CutSpec(lim, s) ==> x in Elems(listing);
  }

  // Transactions that are new to the pool and for which there is room.
  ghost predicate Room(lim: Limits, p: PoolState, txs: seq<Transaction>) {
    && (forall i :: 0 <= i < |txs| ==> txs[i].hash !in p.hashes)
    && (forall i, j :: 0 <= i < j < |txs| ==> txs[i].hash != txs[j].hash)
    && |p.entries| + |txs| <= lim.maxTxs && p.bytes + TxBytes(txs) <= lim.maxBytes
  }

  lemma {:induction false} RequeueAll(lim: Limits, p: PoolState, txs: seq<Transaction>)
    requires Sound(lim, p) && Room(lim, p, txs)
    ensures var p' := RequeueSpec(lim, p, txs);
      Sound(lim, p') && Txs(p'.entries) == Txs(p.entries) + Elems(txs) && p'.bytes == p.bytes + TxBytes(txs)
    decreases |txs|
  {
    if txs == [] {
      assert Txs(p.entries) + Elems(txs) == Txs(p.entries);
    } else {
      var p1 := Admit(p, txs[0], 0);
      TxBytesSplit(txs);
      assert txs[0].hash !in p.hashes && !Full(lim, p, txs[0]);
      AdmitKeepsSound(lim, p, txs[0], 0);
      RoomStep(lim, p, p1, txs);
      RequeueAll(lim, p1, txs[1..]);
      ElemsSplit(txs);
      assert Txs(p.entries) + {txs[0]} + Elems(txs[1..]) == Txs(p.entries) + Elems(txs);
    }
  }

  lemma ElemsSplit(txs: seq<Transaction>)
    requires txs != []
    ensures Elems(txs) == {txs[0]} + Elems(txs[1..])
  {
    assert txs == [txs[0]] + txs[1..];
    ElemsAppend([txs[0]], txs[1..]);
  }

  lemma RoomStep(lim: Limits, p: PoolState, p1: PoolState, txs: seq<Transaction>)
    requires Room(lim, p, txs) && txs != []
    requires p1.hashes == p.hashes + {txs[0].hash} && |p1.entries| == |p.entries| + 1
      && p1.bytes == p.bytes + txs[0].size
    ensures Room(lim, p1, txs[1..]) && !Full(lim, p, txs[0]) && txs[0].hash !in p.hashes
  {
    TxBytesSplit(txs);
    forall i | 0 <= i < |txs[1..]| ensures txs[1..][i].hash !in p1.hashes {
      assert txs[0].hash != txs[i + 1].hash;
    }
  }

  lemma {:induction false} RequeueKeepsSound(lim: Limits, p: PoolState, txs: seq<Transaction>)
    requires Sound(lim, p)
    ensures Sound(lim, RequeueSpec(lim, p, txs))
    decreases |txs|
  {
    if txs != [] && txs[0].hash in p.hashes {
      RequeueKeepsSound(lim, p, txs[1..]);
    } else if txs != [] && !Full(lim, p, txs[0]) {
      AdmitKeepsSound(lim, p, txs[0], 0);
      RequeueKeepsSound(lim, Admit(p, txs[0], 0), txs[1..]);
    }
  }

  lemma {:induction false} TxBytesSplit(txs: seq<Transaction>)
    requires txs != []
    ensures TxBytes(txs) == txs[0].size + TxBytes(txs[1..])
    decreases |txs|
  {
    if |txs| > 1 {
      var front := txs[..|txs| - 1];
      TxBytesSplit(front);
      assert front[1..] == txs[1..][..|txs| - 2];
    }
  }

  lemma {:induction false} TxBytesIsSize(out: seq<Entry>)
    ensures TxBytes(TxList(out)) == SizeOf(out)
    decreases |out|
  {
    if out != [] {
      var front, e := out[..|out| - 1], out[|out| - 1];
      TxBytesIsSize(front);
      assert TxList(out)[..|out| - 1] == TxList(front);
    }
  }

  // A batch that could not be saved leaves the pool with the same transactions.
  lemma FailedBatchRestores(lim: Limits, p: PoolState)
    requires Sound(lim, p)
    ensures var p' := BatchSpec(lim, p, false);
      Sound(lim, p') && Txs(p'.entries) == Txs(p.entries) && p'.hashes == p.hashes && p'.bytes == p.bytes
  {
    if p.entries != {} {
      var out := CutSpec(lim, p.entries);
      CutIsFromPool(lim, p.entries);
      TakeKeepsSound(lim, p, out);
      TxBytesIsSize(out);
      TakenHasRoom(lim, p, out);
      RequeueAll(lim, TakeSpec(p, out), TxList(out));
      TakenTxs(p.entries, out);
      SameHashes(p.entries, BatchSpec(lim, p, false).entries);
    }
  }

  lemma TakenHasRoom(lim: Limits, p: PoolState, out: seq<Entry>)
    requires Sound(lim, p) && NoDup(out) && Elems(out) <= p.entries && |TakeSpec(p, out).entries| == |p.entries| - |out|
    requires TxBytes(TxList(out)) == SizeOf(out)
    ensures Room(lim, TakeSpec(p, out), TxList(out))
  {
    var txs, p1 := TxList(out), TakeSpec(p, out);
    forall i | 0 <= i < |txs| ensures txs[i].hash !in p1.hashes {
      assert out[i] in Elems(out);
      assert out[i].tx.hash in Hashes(Elems(out));
    }
    forall i, j | 0 <= i < j < |txs| ensures txs[i].hash != txs[j].hash {
      assert out[i] in Elems(out) && out[j] in Elems(out) && out[i] != out[j];
    }
  }

  lemma TakenTxs(s: set<Entry>, out: seq<Entry>)
    requires Elems(out) <= s
    ensures Txs(s - Elems(out)) + Elems(TxList(out)) == Txs(s)
  {
    assert forall i :: 0 <= i < |out| ==> TxList(out)[i] == out[i].tx && out[i] in Elems(out);
    forall tx | tx in Txs(s) ensures tx in Txs(s - Elems(out)) + Elems(TxList(out)) {
      var e :| e in s && e.tx == tx;
      if e in Elems(out) {
        var i :| 0 <= i < |out| && out[i] == e;
        assert TxList(out)[i] == tx;
      }
    }
  }

  lemma SameHashes(s: set<Entry>, t: set<Entry>)
    requires Txs(s) == Txs(t)
    ensures Hashes(s) == Hashes(t)
  {
    SubHashes(s, t);
    SubHashes(t, s);
  }

  lemma SubHashes(s: set<Entry>, t: set<Entry>)
    requires Txs(s) <= Txs(t)
    ensures Hashes(s) <= Hashes(t)
  {
    forall h | h in Hashes(s) ensures h in Hashes(t) {
      var e :| e in s && e.tx.hash == h;
      assert e.tx in Txs(t);
    }
  }

  lemma StepKeepsSound(lim: Limits, p: PoolState, e: Event)
    requires Sound(lim, p)
    ensures Sound(lim, Step(lim, p, e))
  {
    match e
    case Add(tx, priority, indexed) =>
      if AddOutcomeOf(lim, p, tx, indexed) == Admitted {
        AdmitKeepsSound(lim, p, tx, priority);
      }
    case Batch(saved) =>
      if saved && p.entries != {} {
        CutIsFromPool(lim, p.entries);
        TakeKeepsSound(lim, p, CutSpec(lim, p.entries));
      } else if !saved {
        FailedBatchRestores(lim, p);
      }
    case Drain =>
  }

  lemma {:induction false} RunKeepsSound(lim: Limits, es: seq<Event>)
    ensures Sound(lim, Run(lim, es))
    decreases |es|
  {
    if es != [] {
      RunKeepsSound(lim, es[..|es| - 1]);
      StepKeepsSound(lim, Run(lim, es[..|es| - 1]), es[|es| - 1]);
    }
  }
}
