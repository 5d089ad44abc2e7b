// Acknowledgment counting (worker/ack_tracker.go, worker/pool.go).
module Acks {
  import opened Types
  import opened Lists

  // Who acknowledged each tracked batch.
  type AckState = map<Hash, set<nat>>

  // ---- Specification --------------------------------------------------------------------------

  ghost function TrackSpec(p: AckState, d: Hash): AckState {
    if d in p then p else p[d := {}]
  }

  ghost function AckSpec(p: AckState, d: Hash, v: nat): AckState {
    if d in p then p[d := p[d] + {v}] else p
  }

  ghost predicate Ready(p: AckState, d: Hash, q: nat) {
    d in p && |p[d]| >= q
  }

  datatype Event = Track(d: Hash) | AckMsg(d: Hash, v: nat) | Expire(ds: set<Hash>)

  ghost function Step(p: AckState, e: Event): AckState {
    match e
    case Track(d) => TrackSpec(p, d)
    case AckMsg(d, v) => AckSpec(p, d, v)
    case Expire(ds) => p - ds
  }

  // The state after the first n events.
  ghost function Run(es: seq<Event>, n: nat): AckState
    requires n <= |es|
  {
    if n == 0 then map[] else Step(Run(es, n - 1), es[n - 1])
  }

  // ---- What a run says ----------------------------------------------------------------------------

  // d was tracked at event k and has not expired since.
  ghost predicate Live(es: seq<Event>, n: nat, k: nat, d: Hash)
    requires n <= |es|
  {
    k < n && es[k] == Track(d) && forall j :: k < j < n ==> !(es[j].Expire? && d in es[j].ds)
  }

  // Who acknowledged d from event k on.
  ghost function Since(es: seq<Event>, n: nat, k: nat, d: Hash): set<nat>
    requires n <= |es|
  {
    if n <= k then {}
    else Since(es, n - 1, k, d) + (if es[n - 1].AckMsg? && es[n - 1].d == d then {es[n - 1].v} else {})
  }

  // d is tracked exactly when some tracking of it is live; it holds every ack since each live
  // tracking, and no more than those since one of them.
  ghost predicate Counts(es: seq<Event>, n: nat, d: Hash, p: AckState)
    requires n <= |es|
  {
    && (forall k :: Live(es, n, k, d) ==> d in p && Since(es, n, k, d) <= p[d])
    && (d in p ==> exists k :: Live(es, n, k, d) && Since(es, n, k, d) == p[d])
  }

  lemma LiveStep(es: seq<Event>, n: nat, k: nat, d: Hash)
    requires 0 < n <= |es|
    ensures Live(es, n, k, d) <==>
      if k == n - 1 then es[n - 1] == Track(d) else Live(es, n - 1, k, d) && !(es[n - 1].Expire? && d in es[n - 1].ds)
  {}

  lemma {:induction false} RunCounts(es: seq<Event>, n: nat, d: Hash)
    requires n <= |es|
    ensures Counts(es, n, d, Run(es, n))
  {
    if n > 0 {
      RunCounts(es, n - 1, d);
      CountsStep(es, n, d, Run(es, n - 1));
    }
  }

  lemma CountsStep(es: seq<Event>, n: nat, d: Hash, p: AckState)
    requires 0 < n <= |es| && Counts(es, n - 1, d, p)
    ensures Counts(es, n, d, Step(p, es[n - 1]))
  {
    var e, p' := es[n - 1], Step(p, es[n - 1]);
    forall k: nat | Live(es, n, k, d) ensures d in p' && Since(es, n, k, d) <= p'[d] {
      LiveStep(es, n, k, d);
      if k < n - 1 {
        assert Live(es, n - 1, k, d);
      }
    }
    if d in p' {
      if d in p {
        var k :| Live(es, n - 1, k, d) && Since(es, n - 1, k, d) == p[d];
        LiveStep(es, n, k, d);
        assert Live(es, n, k, d) && Since(es, n, k, d) == p'[d];
      } else {
        LiveStep(es, n, n - 1, d);
        assert Live(es, n, n - 1, d) && Since(es, n, n - 1, d) == p'[d];
      }
    }
  }

  // A batch counts as acknowledged exactly when a quorum of distinct validators acknowledged it
  // since a tracking that has not expired.
  lemma ReadyIff(es: seq<Event>, d: Hash, q: nat)
    ensures Ready(Run(es, |es|), d, q) <==> exists k :: Live(es, |es|, k, d) && |Since(es, |es|, k, d)| >= q
  {
    var p := Run(es, |es|);
    RunCounts(es, |es|, d);
    forall k: nat | Live(es, |es|, k, d) && |Since(es, |es|, k, d)| >= q ensures Ready(p, d, q) {
      CardMono(Since(es, |es|, k, d), p[d]);
    }
  }

  // A batch that expired and is not tracked again never becomes ready, whoever acknowledges it:
  // its digest then stays in the primary's queue for good.
  lemma ExpiredStrands(es: seq<Event>, d: Hash, q: nat, j: nat)
    requires j < |es| && es[j].Expire? && d in es[j].ds
    requires forall k :: j < k < |es| ==> es[k] != Track(d)
    ensures !Ready(Run(es, |es|), d, q)
  {
    ReadyIff(es, d, q);
  }

  // ---- The pool --------------------------------------------------------------------------------------

  // The ack was offered to the first k workers, stopping at the first to report a quorum.
  ghost predicate Offered(before: seq<AckState>, after: seq<AckState>, d: Hash, v: nat, q: nat, k: nat) {
    && |before| == |after| && k <= |before|
    && (forall j :: 0 <= j < k ==> after[j] == AckSpec(before[j], d, v))
    && (forall j :: k <= j < |before| ==> after[j] == before[j])
    && (forall j :: 0 <= j < k - 1 ==> !Ready(after[j], d, q))
    && (k < |before| ==> k > 0 && Ready(after[k - 1], d, q))
  }

  // As long as only one worker tracks a batch, stopping early leaves out nothing: every worker
  // ends as if it had been offered the ack.
  lemma OfferedReachesAll(before: seq<AckState>, after: seq<AckState>, d: Hash, v: nat, q: nat, k: nat)
    requires Offered(before, after, d, v, q, k)
    requires forall i, j :: 0 <= i < j < |before| ==> !(d in before[i] && d in before[j])
    ensures forall j :: 0 <= j < |before| ==> after[j] == AckSpec(before[j], d, v)
  {
    if k < |before| {
      assert d in before[k - 1];
    }
  }

  // ---- The program -------------------------------------------------------------------------------------

  class AckTracker {
    const quorum: nat
    var pending: map<Hash, set<nat>>

    constructor (quorum: nat)
      ensures this.quorum == quorum && pending == map[]
    {
      this.quorum, pending := quorum, map[];
    }

    method TrackBatch(d: Hash)
      modifies this
      ensures pending == TrackSpec(old(pending), d)
    {
      if d !in pending {
        pending := pending[d := {}];
      }
    }

    // first says whether this ack is the one that lifts the batch to a quorum.
    method RecordAck(d: Hash, v: nat) returns (atQuorum: bool, first: bool)
      modifies this
      ensures pending == AckSpec(old(pending), d, v)
      ensures atQuorum <==> Ready(pending, d, quorum)
      ensures first <==> Ready(pending, d, quorum) && !Ready(old(pending), d, quorum)
    {
      if d !in pending {
        return false, false;
      }
      if v in pending[d] {
        assert pending[d] + {v} == pending[d];
        return |pending[d]| >= quorum, false;
      }
      var wasBelow := |pending[d]| < quorum;
      pending := pending[d := pending[d] + {v}];
      atQuorum := |pending[d]| >= quorum;
      first := wasBelow && atQuorum;
    }

    method RemoveTimedOut(expired: set<Hash>)
      modifies this
      ensures pending == old(pending) - expired
    {
      var left := pending.Keys;
      while left != {}
        invariant left <= pending.Keys && pending == old(pending) - (expired - left)
        decreases left
      {
        var d := Pick(left);
        if d in expired {
          pending := pending - {d};
        }
        left := left - {d};
      }
    }
  }

  ghost function Pendings(workers: seq<AckTracker>): seq<AckState>
    reads workers
  {
    seq(|workers|, i requires 0 <= i < |workers| reads workers => workers[i].pending)
  }

  method PoolRecordAck(workers: seq<AckTracker>, d: Hash, v: nat, ghost q: nat) returns (atQuorum: bool, ghost k: nat)
    requires (forall i, j :: 0 <= i < j < |workers| ==> workers[i] != workers[j])
      && forall i :: 0 <= i < |workers| ==> workers[i].quorum == q
    modifies workers
    ensures Offered(old(Pendings(workers)), Pendings(workers), d, v, q, k)
    ensures atQuorum <==> k > 0 && Ready(workers[k - 1].pending, d, q)
  {
    atQuorum, k := false, 0;
    for i := 0 to |workers|
      invariant k == i && !atQuorum
      invariant forall j :: 0 <= j < i ==> workers[j].pending == AckSpec(old(workers[j].pending), d, v)
      invariant forall j :: i <= j < |workers| ==> workers[j].pending == old(workers[j].pending)
      invariant forall j :: 0 <= j < i ==> !Ready(workers[j].pending, d, q)
    {
      var first;
      atQuorum, first := workers[i].RecordAck(d, v);
      k := i + 1;
      if atQuorum {
        return;
      }
    }
  }

  method HasBatchAckQuorum(workers: seq<AckTracker>, d: Hash) returns (r: bool)
    ensures r <==> exists i :: 0 <= i < |workers| && Ready(workers[i].pending, d, workers[i].quorum)
  {
    for i := 0 to |workers|
      invariant forall j :: 0 <= j < i ==> !Ready(workers[j].pending, d, workers[j].quorum)
    {
      if d in workers[i].pending && |workers[i].pending[d]| >= workers[i].quorum {
        return true;
      }
    }
    return false;
  }
}
