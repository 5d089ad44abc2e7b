// Garbage collection and the recovery of transactions (gc/gc.go).
module Gc {
  import opened Types
  import opened Dag
  import opened BatchStore
  import opened TxIndex
  import Lists
  import Shape
  import Worker

  datatype Settings = Settings(depth: nat, recover: bool)

  datatype GcState = GcState(
    dag: DagState, batches: Contents, index: IndexState, tracked: map<Hash, nat>, committed: nat, last: nat)

  // ---- Specification --------------------------------------------------------------------------------

  function Cutoff(committed: nat, depth: nat): nat {
    if committed <= depth then 0 else committed - depth
  }

  // The first round the fallback scan looks at.
  function StartRound(last: nat): nat {
    if last > 0 then last + 1 else 0
  }

  // Some certificate of the batch's own round cites it.
  ghost predicate Cited(dag: DagState, d: Hash, r: nat) {
    exists c :: c in RoundCerts(dag, r) && d in c.header.BatchDigests()
  }

  ghost function Tracked(s: GcState, cutoff: nat): set<Hash> {
    set d | d in s.tracked && s.tracked[d] < cutoff
  }

  ghost function Scanned(s: GcState, cutoff: nat): set<Hash> {
    set d | d in s.batches && StartRound(s.last) <= s.batches[d].round < cutoff && !Cited(s.dag, d, s.batches[d].round)
  }

  // The batches whose transactions are handed to recovery: the tracked ones that are still
  // stored, or, when none is tracked, what the scan finds.
  ghost function Recovered(s: GcState, cutoff: nat): set<Hash> {
    if Tracked(s, cutoff) != {} then Tracked(s, cutoff) * s.batches.Keys else Scanned(s, cutoff)
  }

  ghost function Unindexed(s: GcState, cutoff: nat): set<Hash> {
    if Tracked(s, cutoff) != {} then Tracked(s, cutoff) else Scanned(s, cutoff)
  }

  ghost function ExtractSpec(s: GcState, cutoff: nat): GcState {
    s.(index := WithoutBatches(s.index, Unindexed(s, cutoff)), tracked := s.tracked - Tracked(s, cutoff))
  }

  ghost function DeleteSpec(s: GcState, cutoff: nat): GcState {
    s.(dag := PruneBeforeSpec(s.dag, cutoff).(store := StoreFrom(s.dag.store, cutoff)),
       batches := DeleteBeforeSpec(s.batches, cutoff),
       index := PruneSpec(s.index, cutoff),
       last := if cutoff > 0 then cutoff - 1 else s.last)
  }

  ghost function PerformSpec(g: Settings, s: GcState, cutoff: nat): GcState {
    DeleteSpec(if g.recover then ExtractSpec(s, cutoff) else s, cutoff)
  }

  ghost function CommitSpec(s: GcState, round: nat): GcState {
    if round > s.committed then s.(committed := round) else s
  }

  ghost function NotifySpec(g: Settings, s: GcState, round: nat): GcState {
    var s' := CommitSpec(s, round);
    var cutoff := Cutoff(s'.committed, g.depth);
    if cutoff == 0 then s' else PerformSpec(g, s', cutoff)
  }

  // ---- One collection ------------------------------------------------------------------------------------

  // The DAG and the stores keep exactly what is not below the cutoff.
  lemma CollectsExactly(g: Settings, s: GcState, cutoff: nat)
    requires Agree(s.dag)
    ensures var s' := PerformSpec(g, s, cutoff);
      && Agree(s'.dag)
      && s'.dag.index == (map d | d in s.dag.index && s.dag.index[d].Round() >= cutoff :: s.dag.index[d])
      && s'.dag.rounds == (map r | r in s.dag.rounds && r >= cutoff :: s.dag.rounds[r])
      && s'.dag.store == (map d | d in s.dag.store && s.dag.store[d].Round() >= cutoff :: s.dag.store[d])
      && s'.batches == (map d | d in s.batches && s.batches[d].round >= cutoff :: s.batches[d])
      && forall b :: b in s'.index.rounds ==> s'.index.rounds[b] >= cutoff
  {
    PruneBeforeExact(s.dag, cutoff);
  }

  // A batch saved at a round the scan has passed is deleted by the next collection without its
  // transactions being recovered.
  lemma LateBatchIsLost(g: Settings, s: GcState, b: Batch, round: nat)
    requires s.tracked == map[] && b.digest !in s.batches && b.round < StartRound(s.last)
      && !Cited(s.dag, b.digest, b.round)
    requires Cutoff(CommitSpec(s, round).committed, g.depth) > b.round
    ensures var s1 := s.(batches := SaveSpec(s.batches, b));
      var cutoff := Cutoff(CommitSpec(s1, round).committed, g.depth);
      && b.digest in s1.batches && b.digest !in NotifySpec(g, s1, round).batches
      && b.digest !in Recovered(CommitSpec(s1, round), cutoff)
  {
    var s1 := s.(batches := SaveSpec(s.batches, b));
    assert s1.batches[b.digest] == b;
  }

  // A recovered transaction is still indexed when it is added back exactly when some batch that is
  // not taken out of the index with it lists it; only then can the worker take it for one already
  // batched.
  lemma RecoveredStillIndexedIff(s: GcState, cutoff: nat, es: seq<TxIndex.Event>, d: Hash, i: nat,
                                 lim: Worker.Limits, p: Worker.PoolState)
    requires s.index == TxIndex.Run(es) && d in Recovered(s, cutoff) && d in s.batches && i < |s.batches[d].txs|
    ensures var tx, indexed := s.batches[d].txs[i], ExtractSpec(s, cutoff).index.txToBatch.Keys;
      && (tx.hash in indexed <==> exists b :: b !in Unindexed(s, cutoff) && tx.hash in TxsOf(s.index, b))
      && (Worker.AddOutcomeOf(lim, p, tx, indexed) == Worker.Batched ==> tx.hash in indexed)
  {
    StillIndexedIff(es, Unindexed(s, cutoff), s.batches[d].txs[i].hash);
  }

  // In particular, when the index came about by indexing, removing and pruning batches and every
  // batch among them that carries the transaction is taken out, the worker does not drop it.
  lemma RecoveredAreUnindexed(s: GcState, cutoff: nat, es: seq<TxIndex.Event>, all: Contents, d: Hash, i: nat,
                              lim: Worker.Limits, p: Worker.PoolState)
    requires s.index == TxIndex.Run(es) && BatchesOnly(es, all)
    requires d in Recovered(s, cutoff) && d in s.batches && i < |s.batches[d].txs|
    requires forall x :: x in all && Carries(all[x], s.batches[d].txs[i].hash) ==> x in Unindexed(s, cutoff)
    ensures var tx, indexed := s.batches[d].txs[i], ExtractSpec(s, cutoff).index.txToBatch.Keys;
      tx.hash !in indexed && Worker.AddOutcomeOf(lim, p, tx, indexed) != Worker.Batched
  {
    RemovedIsUnindexed(es, all, Unindexed(s, cutoff), s.batches[d].txs[i].hash);
  }

  // ---- Whole runs -------------------------------------------------------------------------------------------

  // Others may change the DAG and the index at any time.
  datatype Event = Notify(round: nat) | Save(b: Batch) | Change(dag: DagState, index: IndexState)

  ghost function Step(g: Settings, s: GcState, e: Event): GcState {
    match e
    case Notify(round) => NotifySpec(g, s, round)
    case Save(b) => s.(batches := SaveSpec(s.batches, b))
    case Change(dag, index) => s.(dag := dag, index := index)
  }

  ghost predicate IsRun(g: Settings, ss: seq<GcState>, es: seq<Event>) {
    && |ss| == |es| + 1
    && ss[0].batches == map[] && ss[0].tracked == map[] && ss[0].committed == 0 && ss[0].last == 0
    && forall i :: 0 <= i < |es| ==> ss[i + 1] == Step(g, ss[i], es[i])
  }

  ghost function CutoffAt(g: Settings, s: GcState): nat { Cutoff(s.committed, g.depth) }

  // The last collected round follows the committed one, and nothing is tracked.
  ghost predicate InStep(g: Settings, s: GcState) {
    s.tracked == map[] && s.last == if CutoffAt(g, s) > 0 then CutoffAt(g, s) - 1 else 0
  }

  lemma StepInStep(g: Settings, s: GcState, e: Event)
    requires InStep(g, s)
    ensures InStep(g, Step(g, s, e)) && CutoffAt(g, s) <= CutoffAt(g, Step(g, s, e))
  {
    assert forall gone: set<Hash> :: s.tracked - gone == s.tracked;
  }

  lemma {:induction false} RunInStep(g: Settings, ss: seq<GcState>, es: seq<Event>, i: nat)
    requires IsRun(g, ss, es) && i < |ss|
    ensures InStep(g, ss[i])
  {
    if i > 0 {
      RunInStep(g, ss, es, i - 1);
      assert ss[i - 1 + 1] == Step(g, ss[i - 1], es[i - 1]);
      StepInStep(g, ss[i - 1], es[i - 1]);
    }
  }

  // The cutoff never decreases.
  lemma {:induction false} CutoffMonotone(g: Settings, ss: seq<GcState>, es: seq<Event>, i: nat, j: nat)
    requires IsRun(g, ss, es) && i <= j < |ss|
    ensures CutoffAt(g, ss[i]) <= CutoffAt(g, ss[j])
    decreases j
  {
    if i < j {
      CutoffMonotone(g, ss, es, i, j - 1);
      RunInStep(g, ss, es, j - 1);
      assert ss[j - 1 + 1] == Step(g, ss[j - 1], es[j - 1]);
      StepInStep(g, ss[j - 1], es[j - 1]);
    }
  }

  // Round r was in the interval of a collection's scan.
  ghost predicate ScansAt(g: Settings, ss: seq<GcState>, es: seq<Event>, j: nat, r: nat)
    requires |ss| == |es| + 1 && j < |es|
  {
    g.recover && es[j].Notify? && StartRound(ss[j].last) <= r < CutoffAt(g, ss[j + 1])
  }

  ghost predicate WasScanned(g: Settings, ss: seq<GcState>, es: seq<Event>, i: nat, r: nat)
    requires |ss| == |es| + 1 && i <= |es|
  {
    exists j :: 0 <= j < i && ScansAt(g, ss, es, j, r)
  }

  // The scans leave no gap: with recovery on, the rounds scanned so far are exactly those below the
  // cutoff.
  lemma {:induction false} NoGap(g: Settings, ss: seq<GcState>, es: seq<Event>, i: nat, r: nat)
    requires IsRun(g, ss, es) && i <= |es|
    ensures WasScanned(g, ss, es, i, r) <==> g.recover && r < CutoffAt(g, ss[i])
  {
    if i > 0 {
      NoGap(g, ss, es, i - 1, r);
      RunInStep(g, ss, es, i - 1);
      assert ss[i - 1 + 1] == Step(g, ss[i - 1], es[i - 1]);
      StepInStep(g, ss[i - 1], es[i - 1]);
      if WasScanned(g, ss, es, i - 1, r) {
        var j :| 0 <= j < i - 1 && ScansAt(g, ss, es, j, r);
        assert 0 <= j < i;
      }
      if g.recover && r < CutoffAt(g, ss[i]) && !WasScanned(g, ss, es, i - 1, r) {
        assert ScansAt(g, ss, es, i - 1, r);
      }
    }
  }

  // ---- What becomes of a batch ----------------------------------------------------------------------------

  // Event i newly stores batch d.
  ghost predicate SavesAt(ss: seq<GcState>, es: seq<Event>, i: nat, d: Hash)
    requires |ss| == |es| + 1 && i < |es|
  {
    es[i].Save? && es[i].b.digest == d && d !in ss[i].batches
  }

  // Event i deletes batch d.
  ghost predicate DeletesAt(ss: seq<GcState>, es: seq<Event>, i: nat, d: Hash)
    requires |ss| == |es| + 1 && i < |es|
  {
    d in ss[i].batches && d !in ss[i + 1].batches
  }

  // Event i hands the transactions of batch d to recovery.
  ghost predicate HandsAt(g: Settings, ss: seq<GcState>, es: seq<Event>, i: nat, d: Hash)
    requires |ss| == |es| + 1 && i < |es|
  {
    && g.recover && es[i].Notify? && CutoffAt(g, ss[i + 1]) > 0
    && d in Recovered(CommitSpec(ss[i], es[i].round), CutoffAt(g, ss[i + 1]))
  }

  // Event i deletes batch d, which a certificate of its round cites.
  ghost predicate CitedAt(ss: seq<GcState>, es: seq<Event>, i: nat, d: Hash)
    requires |ss| == |es| + 1 && i < |es|
  {
    DeletesAt(ss, es, i, d) && Cited(ss[i].dag, d, ss[i].batches[d].round)
  }

  // Event i deletes batch d, uncited, without recovering it.
  ghost predicate LosesAt(g: Settings, ss: seq<GcState>, es: seq<Event>, i: nat, d: Hash)
    requires |ss| == |es| + 1 && i < |es|
  {
    DeletesAt(ss, es, i, d) && !Cited(ss[i].dag, d, ss[i].batches[d].round) && !HandsAt(g, ss, es, i, d)
  }

  ghost function Count(b: bool): nat { if b then 1 else 0 }

  // How often each happens to d in the first n events.
  ghost function Saved(ss: seq<GcState>, es: seq<Event>, n: nat, d: Hash): nat
    requires |ss| == |es| + 1 && n <= |es|
  {
    if n == 0 then 0 else Saved(ss, es, n - 1, d) + Count(SavesAt(ss, es, n - 1, d))
  }

  ghost function Handed(g: Settings, ss: seq<GcState>, es: seq<Event>, n: nat, d: Hash): nat
    requires |ss| == |es| + 1 && n <= |es|
  {
    if n == 0 then 0 else Handed(g, ss, es, n - 1, d) + Count(HandsAt(g, ss, es, n - 1, d))
  }

  ghost function DeletedCited(ss: seq<GcState>, es: seq<Event>, n: nat, d: Hash): nat
    requires |ss| == |es| + 1 && n <= |es|
  {
    if n == 0 then 0 else DeletedCited(ss, es, n - 1, d) + Count(CitedAt(ss, es, n - 1, d))
  }

  ghost function Lost(g: Settings, ss: seq<GcState>, es: seq<Event>, n: nat, d: Hash): nat
    requires |ss| == |es| + 1 && n <= |es|
  {
    if n == 0 then 0 else Lost(g, ss, es, n - 1, d) + Count(LosesAt(g, ss, es, n - 1, d))
  }

  // What is handed to recovery is deleted by the same event, and no certificate of its round
  // cites it.
  lemma HandedIsDeleted(g: Settings, ss: seq<GcState>, es: seq<Event>, i: nat, d: Hash)
    requires IsRun(g, ss, es) && i < |es| && HandsAt(g, ss, es, i, d)
    ensures DeletesAt(ss, es, i, d) && !CitedAt(ss, es, i, d)
  {
    RunInStep(g, ss, es, i);
    assert ss[i + 1] == Step(g, ss[i], es[i]);
    assert Tracked(CommitSpec(ss[i], es[i].round), CutoffAt(g, ss[i + 1])) == {};
  }

  lemma BatchStep(g: Settings, ss: seq<GcState>, es: seq<Event>, i: nat, d: Hash)
    requires IsRun(g, ss, es) && i < |es|
    ensures Count(d in ss[i].batches) + Count(SavesAt(ss, es, i, d))
      == Count(d in ss[i + 1].batches) + Count(HandsAt(g, ss, es, i, d))
        + Count(CitedAt(ss, es, i, d)) + Count(LosesAt(g, ss, es, i, d))
  {
    assert ss[i + 1] == Step(g, ss[i], es[i]);
    if HandsAt(g, ss, es, i, d) {
      HandedIsDeleted(g, ss, es, i, d);
    }
    assert d !in ss[i].batches && d in ss[i + 1].batches ==> SavesAt(ss, es, i, d);
  }

  // Over every run, each time a batch was stored it was recovered once, was deleted while cited,
  // was lost, or is still stored.
  lemma {:induction false} BatchesAreConserved(g: Settings, ss: seq<GcState>, es: seq<Event>, n: nat, d: Hash)
    requires IsRun(g, ss, es) && n <= |es|
    ensures Saved(ss, es, n, d)
      == Handed(g, ss, es, n, d) + DeletedCited(ss, es, n, d) + Lost(g, ss, es, n, d) + Count(d in ss[n].batches)
  {
    if n > 0 {
      BatchesAreConserved(g, ss, es, n - 1, d);
      BatchStep(g, ss, es, n - 1, d);
    }
  }

  // Batch d has been stored since event j saved it.
  ghost predicate HeldSince(ss: seq<GcState>, es: seq<Event>, j: nat, i: nat, d: Hash)
    requires |ss| == |es| + 1 && i <= |es|
  {
    j < i && SavesAt(ss, es, j, d) && forall k :: j < k <= i ==> d in ss[k].batches
  }

  lemma {:induction false} StoredWasSaved(g: Settings, ss: seq<GcState>, es: seq<Event>, i: nat, d: Hash)
    returns (j: nat)
    requires IsRun(g, ss, es) && i <= |es| && d in ss[i].batches
    ensures HeldSince(ss, es, j, i, d)
  {
    assert i > 0;
    assert ss[i - 1 + 1] == Step(g, ss[i - 1], es[i - 1]);
    if d in ss[i - 1].batches {
      j := StoredWasSaved(g, ss, es, i - 1, d);
    } else {
      j := i - 1;
    }
  }

  // A collection that a batch survives has a cutoff no higher than the batch's round.
  lemma SurvivesStep(g: Settings, s: GcState, e: Event, d: Hash)
    requires InStep(g, s) && d in s.batches && d in Step(g, s, e).batches
    ensures var s' := Step(g, s, e);
      && s'.batches[d] == s.batches[d]
      && (s.batches[d].round >= StartRound(s.last) <==> s'.batches[d].round >= StartRound(s'.last))
      && (s.batches[d].round < CutoffAt(g, s) <==> s'.batches[d].round < CutoffAt(g, s'))
  {
    StepInStep(g, s, e);
  }

  lemma {:induction false} TimelinessKept(g: Settings, ss: seq<GcState>, es: seq<Event>, j: nat, i: nat, d: Hash)
    requires IsRun(g, ss, es) && i <= |es| && HeldSince(ss, es, j, i, d)
    ensures d in ss[i].batches && ss[i].batches[d] == es[j].b
    ensures es[j].b.round >= StartRound(ss[j].last) <==> es[j].b.round >= StartRound(ss[i].last)
    ensures es[j].b.round < CutoffAt(g, ss[j]) <==> es[j].b.round < CutoffAt(g, ss[i])
    decreases i
  {
    var k := i - 1;
    assert ss[k + 1] == Step(g, ss[k], es[k]);
    if j < k {
      TimelinessKept(g, ss, es, j, k, d);
      RunInStep(g, ss, es, k);
      SurvivesStep(g, ss[k], es[k], d);
    }
  }

  // A deleted batch is recovered exactly when recovery is on, it was saved at a round that the scan
  // had not passed by then, and no certificate of its round cites it.
  lemma RecoveredIffTimely(g: Settings, ss: seq<GcState>, es: seq<Event>, j: nat, i: nat, d: Hash)
    requires IsRun(g, ss, es) && i < |es| && HeldSince(ss, es, j, i, d) && DeletesAt(ss, es, i, d)
    ensures HandsAt(g, ss, es, i, d) <==>
      g.recover && es[j].b.round >= StartRound(ss[j].last) && !Cited(ss[i].dag, d, es[j].b.round)
  {
    TimelinessKept(g, ss, es, j, i, d);
    RunInStep(g, ss, es, i);
    assert ss[i + 1] == Step(g, ss[i], es[i]);
    var s := CommitSpec(ss[i], es[i].round);
    assert Tracked(s, CutoffAt(g, ss[i + 1])) == {};
  }

  // The scan looks only at certificates of the batch's own round.  So a batch that was timely and
  // that the DAG cites is recovered, to be batched again, exactly when every certificate that cites
  // it is of another round.
  lemma CitedElsewhereIff(g: Settings, ss: seq<GcState>, es: seq<Event>, j: nat, i: nat, d: Hash)
    requires IsRun(g, ss, es) && i < |es| && HeldSince(ss, es, j, i, d) && DeletesAt(ss, es, i, d)
    requires g.recover && es[j].b.round >= StartRound(ss[j].last)
    ensures HandsAt(g, ss, es, i, d) <==>
      forall r: nat, c :: c in RoundCerts(ss[i].dag, r) && d in c.header.BatchDigests() ==> r != es[j].b.round
  {
    RecoveredIffTimely(g, ss, es, j, i, d);
  }

  // At every point of a run a stored batch is below the cutoff exactly when it was below it
  // already when it was saved: collections leave nothing behind.
  lemma BelowCutoffIff(g: Settings, ss: seq<GcState>, es: seq<Event>, i: nat, d: Hash) returns (j: nat)
    requires IsRun(g, ss, es) && i <= |es| && d in ss[i].batches
    ensures HeldSince(ss, es, j, i, d)
    ensures ss[i].batches[d].round < CutoffAt(g, ss[i]) <==> es[j].b.round < CutoffAt(g, ss[j])
  {
    j := StoredWasSaved(g, ss, es, i, d);
    TimelinessKept(g, ss, es, j, i, d);
  }

  // ---- What survives, by the rounds notified -----------------------------------------------------------------

  // The highest round notified in the first n events.
  ghost function TopNotified(es: seq<Event>, n: nat): nat
    requires n <= |es|
  {
    if n == 0 then 0
    else if es[n - 1].Notify? && es[n - 1].round > TopNotified(es, n - 1) then es[n - 1].round
    else TopNotified(es, n - 1)
  }

  lemma {:induction false} CommittedIsTop(g: Settings, ss: seq<GcState>, es: seq<Event>, n: nat)
    requires IsRun(g, ss, es) && n <= |es|
    ensures ss[n].committed == TopNotified(es, n)
  {
    if n > 0 {
      CommittedIsTop(g, ss, es, n - 1);
      assert ss[n - 1 + 1] == Step(g, ss[n - 1], es[n - 1]);
    }
  }

  // A notification keeps exactly the batches whose round is at most the depth below the highest
  // round notified so far.
  lemma SurvivesIff(g: Settings, ss: seq<GcState>, es: seq<Event>, i: nat, d: Hash)
    requires IsRun(g, ss, es) && i < |es| && es[i].Notify? && d in ss[i].batches
    ensures d in ss[i + 1].batches <==> ss[i].batches[d].round + g.depth >= TopNotified(es, i + 1)
  {
    assert ss[i + 1] == Step(g, ss[i], es[i]);
    CommittedIsTop(g, ss, es, i);
    CommittedIsTop(g, ss, es, i + 1);
  }

  // And exactly such certificates, in the DAG and in the store.
  lemma CertificateSurvivesIff(g: Settings, ss: seq<GcState>, es: seq<Event>, i: nat, d: Hash)
    requires IsRun(g, ss, es) && i < |es| && es[i].Notify? && Agree(ss[i].dag)
    ensures d in ss[i + 1].dag.index <==>
      d in ss[i].dag.index && ss[i].dag.index[d].Round() + g.depth >= TopNotified(es, i + 1)
    ensures d in ss[i + 1].dag.store <==>
      d in ss[i].dag.store && ss[i].dag.store[d].Round() + g.depth >= TopNotified(es, i + 1)
  {
    assert ss[i + 1] == Step(g, ss[i], es[i]);
    CommittedIsTop(g, ss, es, i);
    CommittedIsTop(g, ss, es, i + 1);
    var s := CommitSpec(ss[i], es[i].round);
    var cutoff := CutoffAt(g, s);
    CollectsExactly(g, s, cutoff);
  }

  // A deleted batch is recovered exactly when recovery is on, no certificate of its round cites it,
  // and when it was saved its round was at most the depth below the highest round notified, or no
  // round past 0 had been collected.
  lemma RecoveredByRounds(g: Settings, ss: seq<GcState>, es: seq<Event>, j: nat, i: nat, d: Hash)
    requires IsRun(g, ss, es) && i < |es| && HeldSince(ss, es, j, i, d) && DeletesAt(ss, es, i, d)
    ensures HandsAt(g, ss, es, i, d) <==>
      && g.recover && !Cited(ss[i].dag, d, es[j].b.round)
      && (es[j].b.round + g.depth >= TopNotified(es, j) || TopNotified(es, j) <= g.depth + 1)
  {
    RecoveredIffTimely(g, ss, es, j, i, d);
    RunInStep(g, ss, es, j);
    CommittedIsTop(g, ss, es, j);
  }

  // ---- Batches saved at round 0 ---------------------------------------------------------------------------

  ghost predicate AllAtZero(es: seq<Event>) {
    forall i :: 0 <= i < |es| && es[i].Save? ==> es[i].b.round == 0
  }

  // When every batch is saved at round 0, as the parts are wired together, each collection deletes
  // every stored batch; it recovers one exactly while at most round 0 has been collected and no
  // round-0 certificate cites it.
  lemma RoundZeroCollects(g: Settings, ss: seq<GcState>, es: seq<Event>, i: nat)
    requires IsRun(g, ss, es) && AllAtZero(es) && i < |es| && es[i].Notify? && CutoffAt(g, ss[i + 1]) > 0
    ensures ss[i + 1].batches == map[]
    ensures forall d :: d in ss[i].batches ==>
      (HandsAt(g, ss, es, i, d) <==> g.recover && CutoffAt(g, ss[i]) <= 1 && !Cited(ss[i].dag, d, 0))
  {
    assert ss[i + 1] == Step(g, ss[i], es[i]);
    RunInStep(g, ss, es, i);
    forall d | d in ss[i].batches
      ensures ss[i].batches[d].round == 0 && DeletesAt(ss, es, i, d)
      ensures HandsAt(g, ss, es, i, d) <==> g.recover && CutoffAt(g, ss[i]) <= 1 && !Cited(ss[i].dag, d, 0)
    {
      var j := StoredWasSaved(g, ss, es, i, d);
      TimelinessKept(g, ss, es, j, i, d);
      RecoveredIffTimely(g, ss, es, j, i, d);
    }
    var left := ss[i + 1].batches;
    assert left == DeleteBeforeSpec(ss[i].batches, CutoffAt(g, ss[i + 1]));
    if left.Keys != {} {
      var d := Lists.Member(left.Keys);
    }
  }

  // ---- A batch that a later round cites -------------------------------------------------------------------

  ghost function PlainHeader(round: nat, refs: seq<BatchRef>, parents: seq<CertRef>, digest: Hash): Header {
    Header(0, round, 0, refs, parents, 0, digest, Sig(0, digest, 0))
  }

  ghost function Genesis(): Certificate { Certificate(PlainHeader(0, [], [], 10), []) }

  ghost function Citing(): Certificate {
    Certificate(PlainHeader(1, [BatchRef(1, 0, 0)], [CertRef(10, 0)], 11), [])
  }

  lemma CitingAdded(cfg: Config)
    ensures var dag := Adds(cfg, [Genesis(), Citing()]);
      && RoundCerts(dag, 0) == {Genesis()} && RoundCerts(dag, 1) == {Citing()}
      && Genesis().header.BatchDigests() == {} && Citing().header.BatchDigests() == {1}
  {
    Shape.AddsSnoc(cfg, [], Genesis());
    Shape.AddsSnoc(cfg, [Genesis()], Citing());
    assert [] + [Genesis()] == [Genesis()] && [Genesis()] + [Citing()] == [Genesis(), Citing()];
    var s1 := Adds(cfg, [Genesis()]);
    assert AddOutcome(Empty(), Genesis()) == Added;
    assert s1.rounds == map[0 := map[0 := Genesis()]] && s1.index == map[10 := Genesis()];
    assert Citing().Parents() == {10};
    assert AddOutcome(s1, Citing()) == Added;
    assert Citing().header.batchRefs[0] in Citing().header.batchRefs;
  }

  // A batch saved at round 0 that a round-1 certificate of the DAG cites is recovered all the same.
  lemma CitedBatchIsRecovered(g: Settings, cfg: Config, b: Batch, index: IndexState)
    returns (ss: seq<GcState>, es: seq<Event>)
    requires g.recover && b.digest == 1 && b.round == 0
    ensures IsRun(g, ss, es) && |es| == 3 && ss[2].dag == Adds(cfg, [Genesis(), Citing()])
    ensures HandsAt(g, ss, es, 2, 1) && Cited(ss[2].dag, 1, 1)
  {
    var dag := Adds(cfg, [Genesis(), Citing()]);
    es := [Save(b), Change(dag, index), Notify(g.depth + 1)];
    var s0 := GcState(dag, map[], index, map[], 0, 0);
    var s1 := Step(g, s0, es[0]);
    var s2 := Step(g, s1, es[1]);
    ss := [s0, s1, s2, Step(g, s2, es[2])];
    CitingAdded(cfg);
    assert s2.batches == map[1 := b] && CutoffAt(g, ss[3]) == 1;
    RoundZeroCollects(g, ss, es, 2);
    assert Citing() in RoundCerts(s2.dag, 1);
  }
}
