// ReapCertifiedBatches (looseberry.go): which certified batches a proposer takes.
module Reap {
  import opened Types
  import opened Lists
  import opened Ordering
  import opened History
  import opened Dag
  import opened DagImpl

  datatype Certified = Certified(batch: Batch, cert: Certificate)

  // A batch reference together with the certificate that makes it.
  datatype Citation = Citation(digest: Hash, cert: Certificate)

  method BatchSize(b: Batch) returns (total: nat)
    ensures total == TxBytes(b.txs)
  {
    total := 0;
    for i := 0 to |b.txs|
      invariant total == TxBytes(b.txs[..i])
    {
      assert b.txs[..i + 1][..i] == b.txs[..i];
      total := total + b.txs[i].size;
    }
    assert b.txs[..|b.txs|] == b.txs;
  }

  ghost function CitationsOf(cert: Certificate, refs: seq<BatchRef>): seq<Citation> {
    seq(|refs|, i requires 0 <= i < |refs| => Citation(refs[i].digest, cert))
  }

  // Every citation, certificate by certificate.
  ghost function Citations(certs: seq<Certificate>): seq<Citation> {
    if certs == [] then []
    else Citations(certs[..|certs| - 1]) + CitationsOf(certs[|certs| - 1], certs[|certs| - 1].header.batchRefs)
  }

  datatype Place = Place(cert: nat, ref: nat)

  // Citation k comes from the given reference of the given certificate.
  ghost predicate From(certs: seq<Certificate>, c: Citation, p: Place) {
    p.cert < |certs| && c.cert == certs[p.cert] && p.ref < |c.cert.header.batchRefs|
    && c.digest == c.cert.header.batchRefs[p.ref].digest
  }

  ghost predicate InOrder(at: seq<Place>) {
    forall j, k :: 0 <= j < k < |at| ==>
      at[j].cert < at[k].cert || (at[j].cert == at[k].cert && at[j].ref < at[k].ref)
  }

  ghost predicate Covers(certs: seq<Certificate>, at: seq<Place>) {
    forall i: nat, r: nat :: i < |certs| && r < |certs[i].header.batchRefs| ==> Place(i, r) in at
  }

  ghost function Places(n: nat, count: nat): seq<Place> {
    seq(count, r requires 0 <= r < count => Place(n, r))
  }

  lemma CoversMore(certs: seq<Certificate>, before: seq<Place>)
    requires certs != [] && Covers(certs[..|certs| - 1], before)
    ensures Covers(certs, before + Places(|certs| - 1, |certs[|certs| - 1].header.batchRefs|))
  {
    var n := |certs| - 1;
    var more := Places(n, |certs[n].header.batchRefs|);
    forall i: nat, r: nat | i < |certs| && r < |certs[i].header.batchRefs| ensures Place(i, r) in before + more {
      if i < n {
        assert certs[..n][i] == certs[i];
      } else {
        assert more[r] == Place(i, r);
      }
    }
  }

  // Every reference of every certificate is cited once, by certificate and then by reference.
  lemma {:induction false} CitationsInOrder(certs: seq<Certificate>) returns (at: seq<Place>)
    ensures |at| == |Citations(certs)| && InOrder(at) && Covers(certs, at)
    ensures forall k :: 0 <= k < |at| ==> From(certs, Citations(certs)[k], at[k])
    decreases |certs|
  {
    at := [];
    if certs != [] {
      var n := |certs| - 1;
      var front, refs := certs[..n], certs[n].header.batchRefs;
      var before := CitationsInOrder(front);
      at := before + Places(n, |refs|);
      CoversMore(certs, before);
      forall k | 0 <= k < |at| ensures From(certs, Citations(certs)[k], at[k]) {
        if k < |before| {
          assert From(front, Citations(front)[k], before[k]);
        }
      }
      assert forall k :: 0 <= k < |before| ==> From(front, Citations(front)[k], before[k]);
    }
  }

  // The first citation of each stored batch, in order.
  ghost function Available(cs: seq<Citation>, store: map<Hash, Batch>): seq<Certified> {
    if cs == [] then []
    else
      var before, c := Available(cs[..|cs| - 1], store), cs[|cs| - 1];
      if c.digest in CitedIn(cs[..|cs| - 1]) || c.digest !in store then before
      else before + [Certified(store[c.digest], c.cert)]
  }

  ghost function CitedIn(cs: seq<Citation>): set<Hash> {
    set c | c in cs :: c.digest
  }

  ghost function Bytes(items: seq<Certified>): nat {
    if items == [] then 0 else Bytes(items[..|items| - 1]) + TxBytes(items[|items| - 1].batch.txs)
  }

  // The first k items fit: within the budget, or a single item of any size.
  ghost predicate Fits(items: seq<Certified>, k: nat, maxBytes: int)
    requires k <= |items|
  {
    k <= 1 || Bytes(items[..k]) <= maxBytes
  }

  // out is the longest fitting prefix of items.
  ghost predicate LongestFit(items: seq<Certified>, out: seq<Certified>, maxBytes: int) {
    && |out| <= |items| && out == items[..|out|] && Fits(items, |out|, maxBytes)
    && forall k :: |out| < k <= |items| ==> !Fits(items, k, maxBytes)
  }

  lemma {:induction false} BytesMono(items: seq<Certified>, j: nat, k: nat)
    requires j <= k <= |items|
    ensures Bytes(items[..j]) <= Bytes(items[..k])
    decreases k
  {
    if j < k {
      BytesMono(items, j, k - 1);
      assert items[..k][..k - 1] == items[..k - 1];
    }
  }

  // ---- What the available list is -----------------------------------------------------------

  // Citation k is the first of its digest, and the batch is stored.
  ghost predicate FirstOfStored(cs: seq<Citation>, store: map<Hash, Batch>, k: nat) {
    k < |cs| && cs[k].digest in store && forall j :: 0 <= j < k ==> cs[j].digest != cs[k].digest
  }

  // Each cited and stored batch is listed exactly once, paired with the certificate that
  // cites it first, in the order of first citations: at[i] is where item i was first cited.
  ghost predicate FirstCitations(cs: seq<Citation>, store: map<Hash, Batch>, items: seq<Certified>, at: seq<nat>) {
    && |at| == |items|
    && (forall i, j :: 0 <= i < j < |at| ==> at[i] < at[j])
    && (forall k :: k in at <==> FirstOfStored(cs, store, k))
    && (forall i :: 0 <= i < |at| ==>
      FirstOfStored(cs, store, at[i]) && items[i] == Certified(store[cs[at[i]].digest], cs[at[i]].cert))
  }

  lemma FirstOfStoredSnoc(cs: seq<Citation>, c: Citation, store: map<Hash, Batch>, k: nat)
    ensures FirstOfStored(cs + [c], store, k) <==>
      if k == |cs| then c.digest in store && c.digest !in CitedIn(cs) else FirstOfStored(cs, store, k)
  {
    if k == |cs| && c.digest in CitedIn(cs) {
      var x :| x in cs && x.digest == c.digest;
      var j :| 0 <= j < |cs| && cs[j] == x;
      assert (cs + [c])[j].digest == c.digest;
    }
    assert forall j :: 0 <= j < |cs| ==> cs[j].digest in CitedIn(cs) && (cs + [c])[j] == cs[j];
  }

  lemma {:induction false} AvailableMeaning(cs: seq<Citation>, store: map<Hash, Batch>) returns (at: seq<nat>)
    ensures FirstCitations(cs, store, Available(cs, store), at)
    decreases |cs|
  {
    at := [];
    if cs != [] {
      var before, c := cs[..|cs| - 1], cs[|cs| - 1];
      at := AvailableMeaning(before, store);
      assert cs == before + [c];
      forall k: nat
        ensures FirstOfStored(cs, store, k) <==>
          if k == |before| then c.digest in store && c.digest !in CitedIn(before) else FirstOfStored(before, store, k)
      {
        FirstOfStoredSnoc(before, c, store, k);
      }
      if c.digest in store && c.digest !in CitedIn(before) {
        at := at + [|before|];
      }
    }
  }

  // ---- The result ---------------------------------------------------------------------------

  // A larger budget only extends the result.
  lemma LargerBudgetExtends(items: seq<Certified>, x: seq<Certified>, y: seq<Certified>, b: int, b': int)
    requires LongestFit(items, x, b) && LongestFit(items, y, b') && b <= b'
    ensures x <= y
  {
    assert Fits(items, |x|, b');
    assert items[..|y|][..|x|] == items[..|x|];
  }

  // Two nodes that hold the same certificates in range, and the same batches, reap the same
  // list, whatever the order in which the certificates arrived.
  lemma ReapDependsOnCertificatesOnly(s: DagState, s': DagState, from: nat, to: nat, cs: seq<Certificate>,
                                      cs': seq<Certificate>, store: map<Hash, Batch>, maxBytes: int,
                                      x: seq<Certified>, y: seq<Certified>)
    requires Sorted(cs) && NoDup(cs) && Elems(cs) == RangeCerts(s, from, to)
    requires Sorted(cs') && NoDup(cs') && Elems(cs') == RangeCerts(s', from, to)
    requires RangeCerts(s, from, to) == RangeCerts(s', from, to) && DistinctSlots(RangeCerts(s, from, to))
    requires LongestFit(Available(Citations(cs), store), x, maxBytes)
    requires LongestFit(Available(Citations(cs'), store), y, maxBytes)
    ensures x == y
  {
    SortedIsUnique(cs, cs');
    LargerBudgetExtends(Available(Citations(cs), store), x, y, maxBytes, maxBytes);
    LargerBudgetExtends(Available(Citations(cs), store), y, x, maxBytes, maxBytes);
  }

  // A range query sees the certificates of its rounds.
  lemma RangeAbove(s: DagState, from: nat, to: nat)
    requires Agree(s)
    ensures forall c :: c in RangeCerts(s, from, to) <==> c in RangeCerts(s, 0, to) && c.Round() >= from
  {
    forall c | c in RangeCerts(s, 0, to) ensures c.Round() < to && c in RoundCerts(s, c.Round()) {
      var r: nat :| r < to && c in RoundCerts(s, r);
      RoundCertsRound(s, r, c);
    }
    forall c | c in RangeCerts(s, from, to) ensures c.Round() >= from && c in RangeCerts(s, 0, to) {
      var r: nat :| from <= r < to && c in RoundCerts(s, r);
      RoundCertsRound(s, r, c);
    }
  }

  lemma {:induction false} CitationsFrom(certs: seq<Certificate>)
    ensures forall x :: x in Citations(certs) ==> x.cert in certs && x.digest in x.cert.header.BatchDigests()
    decreases |certs|
  {
    if certs != [] {
      var front, last := certs[..|certs| - 1], certs[|certs| - 1];
      CitationsFrom(front);
      var more := CitationsOf(last, last.header.batchRefs);
      assert forall i :: 0 <= i < |more| ==> last.header.batchRefs[i] in last.header.batchRefs;
      forall x | x in Citations(certs) ensures x.cert in certs && x.digest in x.cert.header.BatchDigests() {
        assert x in Citations(front) || x in more;
      }
    }
  }

  // Every item of the result is a stored batch that its certificate, one of those listed, cites.
  lemma ResultIsCited(certs: seq<Certificate>, store: map<Hash, Batch>, out: seq<Certified>, maxBytes: int)
    requires LongestFit(Available(Citations(certs), store), out, maxBytes)
    ensures forall x :: x in out ==>
      x.cert in certs && exists d :: d in x.cert.header.BatchDigests() && d in store && store[d] == x.batch
  {
    var cs := Citations(certs);
    var at := AvailableMeaning(cs, store);
    CitationsFrom(certs);
    forall i | 0 <= i < |out|
      ensures out[i].cert in certs
      ensures exists d :: d in out[i].cert.header.BatchDigests() && d in store && store[d] == out[i].batch
    {
      assert out[i] == Available(cs, store)[i];
      assert cs[at[i]] in cs && store[cs[at[i]].digest] == out[i].batch;
    }
  }

  // When something available is left out, one more item would break the budget; something is always
  // taken.
  lemma LongestFitMeaning(items: seq<Certified>, out: seq<Certified>, maxBytes: int)
    requires LongestFit(items, out, maxBytes)
    ensures out <= items && (|out| > 1 ==> Bytes(out) <= maxBytes)
    ensures out != items ==> |out| > 0 && Bytes(items[..|out| + 1]) > maxBytes
  {
    if out != items {
      assert !Fits(items, |out| + 1, maxBytes);
    }
    assert items[..|out|] == out;
  }

  class Reaper {
    const dag: DAG
    var batchStore: map<Hash, Batch>
    var committedRound: nat
    var hasCommitted: bool

    constructor (dag: DAG)
      ensures this.dag == dag && batchStore == map[] && committedRound == 0 && !hasCommitted
    {
      this.dag := dag;
      batchStore, committedRound, hasCommitted := map[], 0, false;
    }

    // The longest within-budget prefix (or the first item alone) of the deduplicated,
    // available batches, in canonical certificate order above the committed round.
    method ReapCertifiedBatches(maxBytes: int) returns (result: seq<Certified>, ghost certs: seq<Certificate>)
      requires Agree(dag.State()) && Keyed(dag.certStore)
      ensures forall c :: c in certs <==>
        c in RangeCerts(dag.State(), 0, dag.highestRound + 1) && (hasCommitted ==> c.Round() > committedRound)
      ensures Sorted(certs) && NoDup(certs) && LongestFit(Available(Citations(certs), batchStore), result, maxBytes)
      ensures forall x :: x in result ==> x.cert in certs
      ensures hasCommitted ==> forall x :: x in result ==> x.cert.Round() > committedRound
      ensures hasCommitted && dag.highestRound <= committedRound ==> result == []
      ensures |result| > 1 ==> Bytes(result) <= maxBytes
    {
      result, certs := [], [];
      var currentRound := dag.highestRound;
      var fromRound: nat := 0;
      RangeAbove(dag.State(), if hasCommitted then committedRound + 1 else 0, currentRound + 1);
      if hasCommitted {
        if currentRound <= committedRound {
          return;
        }
        fromRound := committedRound + 1;
      }
      var ordered := dag.GetOrderedCertificates(fromRound, currentRound);
      certs := ordered;
      assert forall c :: c in certs <==> c in Elems(certs);
      result := Collect(ordered, maxBytes);
      ResultIsCited(certs, batchStore, result, maxBytes);
      assert result[..|result|] == result;
    }

    method Collect(certs: seq<Certificate>, maxBytes: int) returns (result: seq<Certified>)
      ensures LongestFit(Available(Citations(certs), batchStore), result, maxBytes)
    {
      ghost var items := Available(Citations(certs), batchStore);
      result := [];
      var totalBytes, seen: set<Hash>, full := 0, {}, false;
      for i := 0 to |certs|
        invariant Collected(Citations(certs[..i]), result, totalBytes, seen, maxBytes)
      {
        assert certs[..i + 1][..i] == certs[..i];
        ghost var cs := Citations(certs[..i]);
        ghost var more := CitationsOf(certs[i], certs[i].header.batchRefs);
        assert Citations(certs[..i + 1]) == cs + more;
        result, totalBytes, seen, full := CollectOne(certs[i], cs, result, totalBytes, seen, maxBytes);
        if full {
          CitationsPrefix(certs, i + 1);
          StillLongest(Citations(certs[..i + 1]), Citations(certs), result, maxBytes);
          return;
        }
      }
      assert certs[..|certs|] == certs;
      assert Available(Citations(certs), batchStore)[..|result|] == result;
    }

    // After the citations cs: every available item was taken, and the running totals match.
    ghost predicate Collected(cs: seq<Citation>, result: seq<Certified>, totalBytes: nat, seen: set<Hash>,
                              maxBytes: int)
      reads this
    {
      && result == Available(cs, batchStore) && totalBytes == Bytes(result)
      && seen == CitedIn(cs) * batchStore.Keys && Fits(result, |result|, maxBytes)
    }

    // The inner loop, over one certificate's references.
    method CollectOne(cert: Certificate, ghost cs: seq<Citation>, taken: seq<Certified>, bytes: nat,
                      seenBefore: set<Hash>, maxBytes: int)
      returns (result: seq<Certified>, totalBytes: nat, seen: set<Hash>, full: bool)
      requires Collected(cs, taken, bytes, seenBefore, maxBytes)
      ensures !full ==> Collected(cs + CitationsOf(cert, cert.header.batchRefs), result, totalBytes, seen, maxBytes)
      ensures full ==> CutShort(cs + CitationsOf(cert, cert.header.batchRefs), result, maxBytes)
    {
      var refs := cert.header.batchRefs;
      ghost var all := CitationsOf(cert, refs);
      result, totalBytes, seen, full := taken, bytes, seenBefore, false;
      assert cs + all[..0] == cs;
      for j := 0 to |refs|
        invariant Collected(cs + all[..j], result, totalBytes, seen, maxBytes)
      {
        ghost var now, c := cs + all[..j], Citation(refs[j].digest, cert);
        assert cs + all[..j + 1] == now + [c];
        if refs[j].digest in seen || refs[j].digest !in batchStore {
          SkipOne(now, c, result, totalBytes, seen, maxBytes);
        } else {
          var batch := batchStore[refs[j].digest];
          var size := BatchSize(batch);
          TakeOne(now, c, result, totalBytes, seen, maxBytes);
          if totalBytes + size > maxBytes && |result| > 0 {
            full := true;
            FullForGood(cs, all, j, now + [c], result, maxBytes);
            return;
          }
          seen := seen + {refs[j].digest};
          result := result + [Certified(batch, cert)];
          totalBytes := totalBytes + size;
        }
      }
      assert all[..|refs|] == all;
    }

    // The budget ran out before the items did.
    ghost predicate CutShort(cs: seq<Citation>, out: seq<Certified>, maxBytes: int)
      reads this
    {
      LongestFit(Available(cs, batchStore), out, maxBytes) && |out| < |Available(cs, batchStore)|
    }

    lemma SkipOne(cs: seq<Citation>, c: Citation, result: seq<Certified>, totalBytes: nat, seen: set<Hash>,
                  maxBytes: int)
      requires Collected(cs, result, totalBytes, seen, maxBytes) && (c.digest in seen || c.digest !in batchStore)
      ensures Collected(cs + [c], result, totalBytes, seen, maxBytes)
    {
      OneMore(cs, c);
      assert (cs + [c])[..|cs|] == cs;
    }

    lemma TakeOne(cs: seq<Citation>, c: Citation, result: seq<Certified>, totalBytes: nat, seen: set<Hash>,
                  maxBytes: int)
      requires Collected(cs, result, totalBytes, seen, maxBytes) && c.digest !in seen && c.digest in batchStore
      ensures var batch := batchStore[c.digest];
        var over := totalBytes + TxBytes(batch.txs) > maxBytes && |result| > 0;
        && (over ==> CutShort(cs + [c], result, maxBytes))
        && (!over ==>
          Collected(cs + [c], result + [Certified(batch, c.cert)], totalBytes + TxBytes(batch.txs), seen + {c.digest},
            maxBytes))
    {
      var next := result + [Certified(batchStore[c.digest], c.cert)];
      OneMore(cs, c);
      assert (cs + [c])[..|cs|] == cs;
      assert Available(cs + [c], batchStore) == next;
      assert next[..|result|] == result && next[..|next|] == next && result[..|result|] == result;
    }

    lemma FullForGood(cs: seq<Citation>, all: seq<Citation>, j: nat, now: seq<Citation>, out: seq<Certified>,
                      maxBytes: int)
      requires j < |all| && now == cs + all[..j + 1] && CutShort(now, out, maxBytes)
      ensures CutShort(cs + all, out, maxBytes)
    {
      assert cs + all == now + all[j + 1..];
      StillLongest(now, cs + all, out, maxBytes);
    }

    // Cutting short is final: later citations only extend the list of items.
    lemma StillLongest(cs: seq<Citation>, cs': seq<Citation>, out: seq<Certified>, maxBytes: int)
      requires cs <= cs'
      requires CutShort(cs, out, maxBytes)
      ensures CutShort(cs', out, maxBytes)
    {
      var items, items' := Available(cs, batchStore), Available(cs', batchStore);
      assert cs' == cs + cs'[|cs|..];
      AvailablePrefix(cs, cs'[|cs|..], batchStore);
      assert items'[..|out|] == items[..|out|];
      forall k | |out| < k <= |items'| ensures !Fits(items', k, maxBytes) {
        assert !Fits(items, |out| + 1, maxBytes);
        assert items'[..|out| + 1] == items[..|out| + 1];
        BytesMono(items', |out| + 1, k);
      }
    }
  }

  lemma OneMore(cs: seq<Citation>, c: Citation)
    ensures CitedIn(cs + [c]) == CitedIn(cs) + {c.digest}
  {}

  lemma {:induction false} AvailablePrefix(cs: seq<Citation>, more: seq<Citation>, store: map<Hash, Batch>)
    ensures Available(cs, store) <= Available(cs + more, store)
    decreases |more|
  {
    if more == [] {
      assert cs + more == cs;
    } else {
      var all := cs + more;
      assert all[..|all| - 1] == cs + more[..|more| - 1];
      AvailablePrefix(cs, more[..|more| - 1], store);
    }
  }

  lemma {:induction false} CitationsPrefix(certs: seq<Certificate>, i: nat)
    requires i <= |certs|
    ensures Citations(certs[..i]) <= Citations(certs)
    decreases |certs|
  {
    if i < |certs| {
      assert certs[..|certs| - 1][..i] == certs[..i];
      CitationsPrefix(certs[..|certs| - 1], i);
    } else {
      assert certs[..i] == certs;
    }
  }
}
