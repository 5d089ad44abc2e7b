// Rounds, parents and headers (primary/primary.go).
module Rounds {
  import opened Types
  import opened Lists
  import opened Quorum
  import opened CertStore
  import Ordering
  import Votes

  // ---- Rounds -----------------------------------------------------------------------------------

  datatype RoundState = RoundState(round: nat, store: CertState)

  datatype Event = Save(c: Certificate) | TryAdvance

  ghost function AdvanceSpec(s: RoundState, q: nat): RoundState {
    if |OfRound(s.store, s.round)| >= q then s.(round := s.round + 1) else s
  }

  ghost function Step(s: RoundState, e: Event, q: nat): RoundState {
    match e
    case Save(c) => s.(store := SaveSpec(s.store, c))
    case TryAdvance => AdvanceSpec(s, q)
  }

  ghost function Run(es: seq<Event>, q: nat): RoundState {
    if es == [] then RoundState(0, CertState(map[], map[], map[]))
    else Step(Run(es[..|es| - 1], q), es[|es| - 1], q)
  }

  // Every round below the current one has a quorum of stored certificates.
  ghost predicate Earned(s: RoundState, q: nat) {
    Consistent(s.store) && forall r: nat :: r < s.round ==> |OfRound(s.store, r)| >= q
  }

  lemma StepKeepsEarned(s: RoundState, e: Event, q: nat)
    requires Earned(s, q)
    ensures Earned(Step(s, e, q), q)
    ensures s.round <= Step(s, e, q).round <= s.round + 1
    ensures Step(s, e, q).round > s.round <==> e.TryAdvance? && |OfRound(s.store, s.round)| >= q
  {
    if e.Save? {
      SaveKeepsConsistent(s.store, e.c);
      forall r: nat | r < s.round ensures |OfRound(Step(s, e, q).store, r)| >= q {
        SaveOfRound(s.store, e.c, r);
        CardMono(OfRound(s.store, r), OfRound(Step(s, e, q).store, r));
      }
    }
  }

  // The round rises one at a time, and exactly when it is tried past a round with a quorum of stored
  // certificates.
  lemma {:induction false} RunEarned(es: seq<Event>, q: nat)
    ensures Earned(Run(es, q), q)
    ensures es != [] ==> var before := Run(es[..|es| - 1], q);
      && before.round <= Run(es, q).round <= before.round + 1
      && (Run(es, q).round > before.round <==>
            es[|es| - 1].TryAdvance? && |OfRound(before.store, before.round)| >= q)
    decreases |es|
  {
    if es != [] {
      RunEarned(es[..|es| - 1], q);
      StepKeepsEarned(Run(es[..|es| - 1], q), es[|es| - 1], q);
    }
  }

  // ---- Parents -------------------------------------------------------------------------------------

  function Refs(certs: seq<Certificate>): seq<CertRef> {
    seq(|certs|, i requires 0 <= i < |certs| => certs[i].Ref())
  }

  // All certificates of the previous round, by author.
  ghost predicate Candidates(s: CertState, round: nat, certs: seq<Certificate>)
    requires round > 0
  {
    Elems(certs) == OfRound(s, round - 1) && NoDup(certs) && Ordering.Sorted(certs)
  }

  // The refs of the first quorum of them.
  ghost predicate ParentsFor(s: CertState, round: nat, q: nat, refs: seq<CertRef>) {
    if round == 0 then refs == []
    else exists certs ::
      Candidates(s, round, certs) && refs == Refs(if |certs| > q then certs[..q] else certs)
  }

  ghost predicate DistinctRefs(refs: seq<CertRef>) {
    forall i, j :: 0 <= i < j < |refs| ==> refs[i].digest != refs[j].digest
  }

  lemma CandidateFacts(s: CertState, round: nat, certs: seq<Certificate>)
    requires round > 0 && Consistent(s) && Candidates(s, round, certs)
    ensures |certs| == |OfRound(s, round - 1)|
    ensures forall i :: 0 <= i < |certs| ==>
      certs[i].Round() == round - 1 && certs[i].Digest() in s.certs && s.certs[certs[i].Digest()] == certs[i]
    ensures forall i, j :: 0 <= i < j < |certs| ==> certs[i].Digest() != certs[j].Digest()
  {
    NoDupCardinality(certs);
    forall i | 0 <= i < |certs|
      ensures certs[i].Round() == round - 1 && certs[i].Digest() in s.certs && s.certs[certs[i].Digest()] == certs[i]
    {
      assert certs[i] in OfRound(s, round - 1);
    }
  }

  // In every run, a header past round 0 gets exactly a quorum of distinct parents, all stored
  // and all of the round before.
  lemma ParentsAreQuorum(es: seq<Event>, q: nat, refs: seq<CertRef>)
    requires var s := Run(es, q); s.round > 0 && ParentsFor(s.store, s.round, q, refs)
    ensures var s := Run(es, q);
      && |refs| == q && DistinctRefs(refs)
      && forall i :: 0 <= i < |refs| ==>
        refs[i].round == s.round - 1 && refs[i].digest in s.store.certs
          && s.store.certs[refs[i].digest].Round() == s.round - 1
  {
    RunEarned(es, q);
    var s := Run(es, q);
    var certs :| Candidates(s.store, s.round, certs) && refs == Refs(if |certs| > q then certs[..q] else certs);
    CandidateFacts(s.store, s.round, certs);
  }

  // A certificate of the round before that is left out has an author no lower than any that is
  // chosen, and a full quorum is chosen.
  lemma ParentsAreLowest(s: CertState, round: nat, q: nat, refs: seq<CertRef>, c: Certificate)
    requires round > 0 && Consistent(s) && ParentsFor(s, round, q, refs) && c in OfRound(s, round - 1)
    requires forall i :: 0 <= i < |refs| ==> refs[i].digest != c.Digest()
    ensures |refs| == q && forall i :: 0 <= i < |refs| ==>
      refs[i].digest in s.certs && s.certs[refs[i].digest].Author() <= c.Author()
  {
    var certs: seq<Certificate> :|
      Candidates(s, round, certs) && refs == Refs(if |certs| > q then certs[..q] else certs);
    CandidateFacts(s, round, certs);
    assert c in Elems(certs);
    var j :| 0 <= j < |certs| && certs[j] == c;
    assert forall k :: 0 <= k < |refs| ==> refs[k] == certs[k].Ref();
    assert j >= |refs|;
    forall i | 0 <= i < |refs| ensures refs[i].digest in s.certs && s.certs[refs[i].digest].Author() <= c.Author() {
      assert refs[i] == certs[i].Ref() && Ordering.Precedes(certs[i], certs[j]);
    }
  }

  // ---- Headers --------------------------------------------------------------------------------------

  datatype Peer = Peer(round: nat, epoch: nat, validators: set<nat>, maxRoundGap: nat, store: CertState)

  datatype Validity = Valid | RoundMismatch | EpochMismatch | ValidatorNotFound | InvalidSignature | MissingParents

  ghost predicate HoldsParents(s: CertState, h: Header) {
    forall i :: 0 <= i < |h.parents| ==> h.parents[i].digest in s.certs
  }

  ghost function ValidateSpec(p: Peer, h: Header): Validity {
    if h.round < p.round || h.round > p.round + p.maxRoundGap then RoundMismatch
    else if h.epoch != p.epoch then EpochMismatch
    else if h.author !in p.validators then ValidatorNotFound
    else if !Votes.Signed(h.signature, h.author, h.digest) then InvalidSignature
    else if h.round > 0 && (|h.parents| < QuorumSize(|p.validators|) || !HoldsParents(p.store, h)) then MissingParents
    else Valid
  }

  // A header as tryCreateHeader builds and signs it.
  ghost predicate MadeBy(self: nat, epoch: nat, s: RoundState, q: nat, h: Header) {
    && h.author == self && h.round == s.round && h.epoch == epoch && Votes.Signed(h.signature, self, h.digest)
    && ParentsFor(s.store, s.round, q, h.parents)
  }

  // A peer accepts exactly the headers of its epoch that a validator signed, whose round is neither
  // past nor more than the gap ahead, and that, above round 0, cite a quorum of certificates the peer
  // holds.
  lemma ValidIff(p: Peer, h: Header)
    ensures ValidateSpec(p, h) == Valid <==>
      && h.epoch == p.epoch && p.round <= h.round <= p.round + p.maxRoundGap
      && h.author in p.validators && Votes.Signed(h.signature, h.author, h.digest)
      && (h.round == 0
          || (|h.parents| >= QuorumSize(|p.validators|)
              && forall ref :: ref in h.parents ==> ref.digest in p.store.certs))
  {}

  // A header made by a validator is accepted by exactly the peers of the same epoch that hold its
  // parents and whose round is neither past it nor more than the gap behind.
  lemma AcceptedIff(es: seq<Event>, self: nat, epoch: nat, h: Header, p: Peer)
    requires self in p.validators
      && MadeBy(self, epoch, Run(es, QuorumSize(|p.validators|)), QuorumSize(|p.validators|), h)
    ensures ValidateSpec(p, h) == Valid <==>
      p.epoch == epoch && p.round <= h.round <= p.round + p.maxRoundGap && HoldsParents(p.store, h)
  {
    var q := QuorumSize(|p.validators|);
    if Run(es, q).round > 0 {
      ParentsAreQuorum(es, q, h.parents);
    }
  }

  // ---- The queue of batch digests ------------------------------------------------------------------------

  ghost function Only(queue: seq<BatchRef>, acked: set<Hash>): seq<BatchRef> {
    if queue == [] then []
    else Only(queue[..|queue| - 1], acked) + (if queue[|queue| - 1].digest in acked then [queue[|queue| - 1]] else [])
  }

  ghost function Except(queue: seq<BatchRef>, acked: set<Hash>): seq<BatchRef> {
    if queue == [] then []
    else Except(queue[..|queue| - 1], acked) + (if queue[|queue| - 1].digest in acked then [] else [queue[|queue| - 1]])
  }

  // ready is the acked part of the first k entries, and either that is a full header or the
  // whole queue was looked at; everything else stays, in order.
  ghost predicate SplitAt(queue: seq<BatchRef>, acked: set<Hash>, max: nat, k: nat, ready: seq<BatchRef>,
                          rest: seq<BatchRef>) {
    && k <= |queue| && ready == Only(queue[..k], acked) && rest == Except(queue[..k], acked) + queue[k..]
    && |ready| <= max && (k == |queue| || |ready| == max)
  }

  ghost predicate Split(queue: seq<BatchRef>, acked: set<Hash>, max: nat, ready: seq<BatchRef>, rest: seq<BatchRef>) {
    exists k: nat :: SplitAt(queue, acked, max, k, ready, rest)
  }

  // How often x occurs.
  ghost function Times(s: seq<BatchRef>, x: BatchRef): nat {
    if s == [] then 0 else Times(s[..|s| - 1], x) + (if s[|s| - 1] == x then 1 else 0)
  }

  lemma {:induction false} TimesAppend(s: seq<BatchRef>, t: seq<BatchRef>, x: BatchRef)
    ensures Times(s + t, x) == Times(s, x) + Times(t, x)
    decreases |t|
  {
    if t == [] {
      assert s + t == s;
    } else {
      TimesAppend(s, t[..|t| - 1], x);
      assert (s + t)[..|s + t| - 1] == s + t[..|t| - 1];
    }
  }

  lemma {:induction false} Parted(queue: seq<BatchRef>, acked: set<Hash>, x: BatchRef)
    ensures Times(Only(queue, acked), x) + Times(Except(queue, acked), x) == Times(queue, x)
    decreases |queue|
  {
    if queue != [] {
      var front, last := queue[..|queue| - 1], queue[|queue| - 1];
      Parted(front, acked, x);
      TimesAppend(Only(front, acked), [last], x);
      TimesAppend(Except(front, acked), [last], x);
      assert Only(front, acked) + [] == Only(front, acked) && Except(front, acked) + [] == Except(front, acked);
    }
  }

  lemma {:induction false} OnlyAcked(queue: seq<BatchRef>, acked: set<Hash>)
    ensures forall i :: 0 <= i < |Only(queue, acked)| ==> Only(queue, acked)[i].digest in acked
    ensures forall i :: 0 <= i < |Except(queue, acked)| ==> Except(queue, acked)[i].digest !in acked
    decreases |queue|
  {
    if queue != [] {
      OnlyAcked(queue[..|queue| - 1], acked);
    }
  }

  // Nothing is lost or duplicated.
  lemma SplitConserves(queue: seq<BatchRef>, acked: set<Hash>, max: nat, ready: seq<BatchRef>, rest: seq<BatchRef>,
                       x: BatchRef)
    requires Split(queue, acked, max, ready, rest)
    ensures Times(ready, x) + Times(rest, x) == Times(queue, x)
  {
    var k: nat :| SplitAt(queue, acked, max, k, ready, rest);
    assert queue == queue[..k] + queue[k..];
    PartedThen(queue[..k], queue[k..], acked, x);
  }

  lemma PartedThen(front: seq<BatchRef>, back: seq<BatchRef>, acked: set<Hash>, x: BatchRef)
    ensures Times(Only(front, acked), x) + Times(Except(front, acked) + back, x) == Times(front + back, x)
  {
    Parted(front, acked, x);
    TimesAppend(Except(front, acked), back, x);
    TimesAppend(front, back, x);
  }

  // Only acked digests go into a header.
  lemma TakenAreAcked(queue: seq<BatchRef>, acked: set<Hash>, max: nat, ready: seq<BatchRef>, rest: seq<BatchRef>)
    requires Split(queue, acked, max, ready, rest)
    ensures |ready| <= max && forall i :: 0 <= i < |ready| ==> ready[i].digest in acked
  {
    var k: nat :| SplitAt(queue, acked, max, k, ready, rest);
    OnlyAcked(queue[..k], acked);
  }

  // The split is determined by the queue: the first max acked digests, in order.
  lemma SplitTakesFirst(queue: seq<BatchRef>, acked: set<Hash>, max: nat, ready: seq<BatchRef>, rest: seq<BatchRef>)
    requires Split(queue, acked, max, ready, rest)
    ensures var all := Only(queue, acked); ready == if |all| > max then all[..max] else all
  {
    var k: nat :| SplitAt(queue, acked, max, k, ready, rest);
    OnlyPrefix(queue, acked, k);
    if k == |queue| {
      assert queue[..k] == queue;
    }
  }

  lemma {:induction false} OnlyPrefix(queue: seq<BatchRef>, acked: set<Hash>, k: nat)
    requires k <= |queue|
    ensures Only(queue[..k], acked) <= Only(queue, acked)
    decreases |queue|
  {
    if k < |queue| {
      OnlyPrefix(queue[..|queue| - 1], acked, k);
      assert queue[..|queue| - 1][..k] == queue[..k];
    } else {
      assert queue[..k] == queue;
    }
  }

  datatype QueueEvent = Enqueue(ref: BatchRef) | Tick(acked: set<Hash>)

  // One event on the queue, with the digests it puts in a header.
  ghost predicate QueueStep(queue: seq<BatchRef>, e: QueueEvent, max: nat, queue': seq<BatchRef>, out: seq<BatchRef>) {
    match e
    case Enqueue(ref) => queue' == queue + [ref] && out == []
    case Tick(acked) => Split(queue, acked, max, out, queue')
  }

  ghost predicate QueueRun(es: seq<QueueEvent>, max: nat, queues: seq<seq<BatchRef>>, outs: seq<seq<BatchRef>>) {
    && |queues| == |es| + 1 && |outs| == |es| && queues[0] == []
    && forall i :: 0 <= i < |es| ==> QueueStep(queues[i], es[i], max, queues[i + 1], outs[i])
  }

  ghost function Added(e: QueueEvent, x: BatchRef): nat {
    if e == Enqueue(x) then 1 else 0
  }

  // How often x was enqueued, and put in a header, in the first i events.
  ghost function Enqueued(es: seq<QueueEvent>, i: nat, x: BatchRef): nat
    requires i <= |es|
  {
    if i == 0 then 0 else Enqueued(es, i - 1, x) + Added(es[i - 1], x)
  }

  ghost function Taken(outs: seq<seq<BatchRef>>, i: nat, x: BatchRef): nat
    requires i <= |outs|
  {
    if i == 0 then 0 else Taken(outs, i - 1, x) + Times(outs[i - 1], x)
  }

  // At every point of a run each digest enqueued is in exactly one header or still queued.
  lemma {:induction false} QueueConserves(es: seq<QueueEvent>, max: nat, queues: seq<seq<BatchRef>>,
                                          outs: seq<seq<BatchRef>>, i: nat, x: BatchRef)
    requires QueueRun(es, max, queues, outs) && i <= |es|
    ensures Taken(outs, i, x) + Times(queues[i], x) == Enqueued(es, i, x)
  {
    if i > 0 {
      var j := i - 1;
      QueueConserves(es, max, queues, outs, j, x);
      StepConserves(queues[j], es[j], max, queues[j + 1], outs[j], x);
    }
  }

  lemma StepConserves(queue: seq<BatchRef>, e: QueueEvent, max: nat, queue': seq<BatchRef>, out: seq<BatchRef>,
                      x: BatchRef)
    requires QueueStep(queue, e, max, queue', out)
    ensures Times(out, x) + Times(queue', x) == Times(queue, x) + Added(e, x)
  {
    if e.Tick? {
      SplitConserves(queue, e.acked, max, out, queue', x);
    } else {
      TimesAppend(queue, [e.ref], x);
    }
  }
}
