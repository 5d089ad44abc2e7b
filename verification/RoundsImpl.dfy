// The primary's rounds and headers, as a program.
module RoundsImpl {
  import opened Types
  import opened Lists
  import opened Quorum
  import opened CertStore
  import opened Rounds
  import Fetcher
  import Ordering
  import Votes

  class Primary {
    const self: nat
    const epoch: nat
    const validators: set<nat>
    const maxRoundGap: nat
    const maxBatchesPerHeader: nat
    const allowEmptyHeaders: bool
    const store: MemoryCertificateStore
    var round: nat
    var queue: seq<BatchRef>

    ghost function Q(): nat {
      QuorumSize(|validators|)
    }

    ghost function State(): RoundState
      reads this, store
    {
      RoundState(round, store.State())
    }

    ghost function AsPeer(): Peer
      reads this, store
    {
      Peer(round, epoch, validators, maxRoundGap, store.State())
    }

    constructor (self: nat, epoch: nat, validators: set<nat>, gap: nat, maxBatches: nat, allowEmpty: bool,
                 store: MemoryCertificateStore)
      ensures this.self == self && this.epoch == epoch && this.validators == validators && this.store == store
      ensures maxRoundGap == gap && maxBatchesPerHeader == maxBatches && allowEmptyHeaders == allowEmpty && round == 0
        && queue == []
    {
      this.self, this.epoch, this.validators, this.store := self, epoch, validators, store;
      maxRoundGap, maxBatchesPerHeader, allowEmptyHeaders := gap, maxBatches, allowEmpty;
      round, queue := 0, [];
    }

    method TryAdvanceRound() returns (advanced: bool)
      requires Consistent(store.State())
      modifies this`round
      ensures State() == AdvanceSpec(old(State()), Q())
      ensures advanced <==> |OfRound(store.State(), old(round))| >= Q()
      ensures round == if advanced then old(round) + 1 else old(round)
    {
      var certs := store.GetCertificatesByRound(round);
      if |certs| >= QuorumSize(|validators|) {
        round := round + 1;
        return true;
      }
      return false;
    }

    // The refs of a quorum of certificates of the previous round, by author.
    method SelectParents(r: nat) returns (refs: seq<CertRef>)
      requires Consistent(store.State())
      ensures ParentsFor(store.State(), r, Q(), refs)
    {
      refs := [];
      if r == 0 {
        return;
      }
      var certs := store.GetCertificatesByRound(r - 1);
      assert forall c :: c in certs ==> c in OfRound(store.State(), r - 1);
      var sorted := Ordering.SortByAuthor(certs, r - 1);
      assert Candidates(store.State(), r, sorted);
      var q := QuorumSize(|validators|);
      var taken := if |sorted| > q then sorted[..q] else sorted;
      for i := 0 to |taken|
        invariant |refs| == i && forall j :: 0 <= j < i ==> refs[j] == taken[j].Ref()
      {
        refs := refs + [taken[i].Ref()];
      }
      assert refs == Refs(taken);
    }

    // Take the first digests with an ack quorum, up to a full header; keep the rest in order.
    method TakeReady(acked: set<Hash>) returns (ready: seq<BatchRef>)
      modifies this`queue
      ensures Split(old(queue), acked, maxBatchesPerHeader, ready, queue)
    {
      var snapshot := queue;
      var rest: seq<BatchRef> := [];
      ready := [];
      ghost var k := 0;
      for i := 0 to |snapshot|
        invariant k <= i && queue == snapshot
        invariant SplitAt(snapshot[..i], acked, maxBatchesPerHeader, k, ready, rest)
        invariant |ready| < maxBatchesPerHeader ==> k == i
      {
        var ref := snapshot[i];
        if |ready| >= maxBatchesPerHeader {
          SplitPast(snapshot, i, acked, maxBatchesPerHeader, k, ready, rest);
          rest := rest + [ref];
        } else {
          SplitNext(snapshot, i, acked, maxBatchesPerHeader, ready, rest);
          if ref.digest in acked {
            ready := ready + [ref];
          } else {
            rest := rest + [ref];
          }
          k := i + 1;
        }
      }
      assert snapshot[..|snapshot|] == snapshot;
      queue := rest;
    }

    // One tick of the header loop.  The new header's digest, time and signature nonce, and the
    // digests that have an ack quorum, are given.
    method TryCreateHeader(acked: set<Hash>, digest: Hash, nonce: nat, now: int) returns (header: Option<Header>)
      requires Consistent(store.State())
      modifies this`queue
      ensures header.None? ==> queue == old(queue)
      ensures header.Some? ==>
        MadeBy(self, epoch, State(), Q(), header.value) && header.value.digest == digest
        && Split(old(queue), acked, maxBatchesPerHeader, header.value.batchRefs, queue)
      ensures header.Some? <==>
        (old(queue) != [] || allowEmptyHeaders)
        && (round == 0 || OfRound(store.State(), round - 1) != {}
          || (Only(old(queue), acked) != [] && maxBatchesPerHeader > 0))
    {
      if queue == [] && !allowEmptyHeaders {
        return None;
      }
      var ready, parents, skip := Prepare(acked);
      if skip {
        return None;
      }
      return Some(Header(self, round, epoch, ready, parents, now, digest, Sig(self, digest, nonce)));
    }

    // What goes into the next header; past round 0 one without parents and batches is skipped.
    method Prepare(acked: set<Hash>) returns (ready: seq<BatchRef>, parents: seq<CertRef>, skip: bool)
      requires Consistent(store.State())
      modifies this`queue
      ensures Split(old(queue), acked, maxBatchesPerHeader, ready, queue)
        && ParentsFor(store.State(), round, Q(), parents)
      ensures skip <==>
        round > 0 && OfRound(store.State(), round - 1) == {}
          && (Only(old(queue), acked) == [] || maxBatchesPerHeader == 0)
      ensures skip ==> queue == old(queue)
    {
      parents := SelectParents(round);
      ParentsEmpty(store.State(), round, Q(), parents);
      ready := TakeReady(acked);
      SplitEmpty(old(queue), acked, maxBatchesPerHeader, ready, queue);
      skip := round > 0 && parents == [] && ready == [];
    }

    method ValidateHeader(h: Header) returns (v: Validity)
      ensures v == ValidateSpec(AsPeer(), h)
    {
      if h.round < round || h.round > round + maxRoundGap {
        return RoundMismatch;
      }
      if h.epoch != epoch {
        return EpochMismatch;
      }
      if h.author !in validators {
        return ValidatorNotFound;
      }
      if !Votes.Signed(h.signature, h.author, h.digest) {
        return InvalidSignature;
      }
      if h.round > 0 {
        if |h.parents| < QuorumSize(|validators|) {
          return MissingParents;
        }
        for i := 0 to |h.parents|
          invariant forall j :: 0 <= j < i ==> h.parents[j].digest in store.certs
        {
          if h.parents[i].digest !in store.certs {
            return MissingParents;
          }
        }
      }
      return Valid;
    }

    // A peer's header: vote for it when it is valid and every batch is here; otherwise leave it
    // with the fetcher.
    method HandleHeader(h: Header, fetcher: Fetcher.BatchFetcher, nonce: nat) returns (v: Validity, vote: Option<Vote>)
      modifies fetcher
      ensures v == ValidateSpec(AsPeer(), h)
      ensures vote == if v == Valid && h.BatchDigests() <= old(fetcher.stored)
        then Some(Vote(h.digest, self, Sig(self, h.digest, nonce))) else None
      ensures fetcher.State() == if v == Valid then Fetcher.RequestSpec(fetcher.cfg, old(fetcher.State()), h)
        else old(fetcher.State())
    {
      vote := None;
      v := ValidateHeader(h);
      if v == Valid {
        var available := fetcher.RequestBatchesForHeader(h);
        if available {
          vote := Some(Vote(h.digest, self, Sig(self, h.digest, nonce)));
        }
      }
    }

    // A certificate from a peer: when it verifies, it is stored and the round may advance.
    method HandleCertificate(cert: Certificate) returns (r: Votes.VerifyResult)
      requires Consistent(store.State())
      modifies this`round, store
      ensures Consistent(store.State()) && (r == Votes.Verified <==> Votes.Verifies(cert, validators))
      ensures State() == if r == Votes.Verified then Step(Step(old(State()), Save(cert), Q()), TryAdvance, Q())
        else old(State())
    {
      r := Votes.Verify(cert, validators);
      if r == Votes.Verified {
        SaveKeepsConsistent(store.State(), cert);
        store.SaveCertificate(cert);
        var advanced := TryAdvanceRound();
      }
    }
  }

  // With a full header, the next digest stays behind.
  lemma SplitPast(queue: seq<BatchRef>, i: nat, acked: set<Hash>, max: nat, k: nat, ready: seq<BatchRef>,
                  rest: seq<BatchRef>)
    requires i < |queue| && SplitAt(queue[..i], acked, max, k, ready, rest) && |ready| == max
    ensures SplitAt(queue[..i + 1], acked, max, k, ready, rest + [queue[i]])
  {
    assert queue[..i][..k] == queue[..i + 1][..k];
    assert queue[..i + 1][k..] == queue[..i][k..] + [queue[i]];
  }

  // Otherwise it joins the header if it is acked.
  lemma SplitNext(queue: seq<BatchRef>, i: nat, acked: set<Hash>, max: nat, ready: seq<BatchRef>, rest: seq<BatchRef>)
    requires i < |queue| && SplitAt(queue[..i], acked, max, i, ready, rest) && |ready| < max
    ensures var ref := queue[i];
      if ref.digest in acked then SplitAt(queue[..i + 1], acked, max, i + 1, ready + [ref], rest)
      else SplitAt(queue[..i + 1], acked, max, i + 1, ready, rest + [ref])
  {
    var front, all := queue[..i], queue[..i + 1];
    assert front[..i] == front && front[i..] == [] && all[..i + 1] == all && all[i + 1..] == [] && all[..i] == front;
    assert rest == Except(front, acked) && rest + [] == rest;
  }

  // No parents exactly when the round before has no stored certificate.
  lemma ParentsEmpty(s: CertState, round: nat, q: nat, refs: seq<CertRef>)
    requires ParentsFor(s, round, q, refs) && q > 0
    ensures round > 0 ==> (refs == [] <==> OfRound(s, round - 1) == {})
  {
    if round > 0 {
      var certs :| Candidates(s, round, certs) && refs == Refs(if |certs| > q then certs[..q] else certs);
      assert certs == [] <==> Elems(certs) == {} by {
        assert certs != [] ==> certs[0] in Elems(certs);
      }
    }
  }

  lemma {:induction false} ExceptAll(queue: seq<BatchRef>, acked: set<Hash>)
    requires Only(queue, acked) == []
    ensures Except(queue, acked) == queue
    decreases |queue|
  {
    if queue != [] {
      ExceptAll(queue[..|queue| - 1], acked);
    }
  }

  // Nothing is taken exactly when nothing is acked or headers hold no batches; then the queue
  // is left as it was.
  lemma SplitEmpty(queue: seq<BatchRef>, acked: set<Hash>, max: nat, ready: seq<BatchRef>, rest: seq<BatchRef>)
    requires Split(queue, acked, max, ready, rest)
    ensures ready == [] <==> Only(queue, acked) == [] || max == 0
    ensures ready == [] ==> rest == queue
  {
    SplitTakesFirst(queue, acked, max, ready, rest);
    if ready == [] {
      var k: nat :| SplitAt(queue, acked, max, k, ready, rest);
      ExceptAll(queue[..k], acked);
    }
  }
}
