// The sync handlers of network/sync.go, proved against module Sync.
module SyncImpl {
  import opened Types
  import opened History
  import opened Dag
  import opened Orphans
  import opened Delivery
  import opened Reap
  import opened Sync

  datatype SyncResponse = SyncResponse(certs: seq<Certificate>, batches: seq<Batch>, from: nat, to: nat)

  // The certificates that pass verification, in order.
  ghost function Verifying(certs: seq<Certificate>, ok: Certificate -> bool): seq<Certificate> {
    if certs == [] then []
    else Verifying(certs[..|certs| - 1], ok) + (if ok(certs[|certs| - 1]) then [certs[|certs| - 1]] else [])
  }

  ghost function BatchesOf(items: seq<Certified>): seq<Batch> {
    seq(|items|, i requires 0 <= i < |items| => items[i].batch)
  }

  class SyncManager {
    const node: Looseberry
    const syncBatchSize: nat
    var batchStore: map<Hash, Batch>
    var peerHighest: map<nat, nat>

    constructor (node: Looseberry, syncBatchSize: nat)
      ensures this.node == node && this.syncBatchSize == syncBatchSize && batchStore == map[] && peerHighest == map[]
    {
      this.node := node;
      this.syncBatchSize := syncBatchSize;
      batchStore, peerHighest := map[], map[];
    }

    // The response to a request: the window's certificates in canonical order, and every
    // stored batch they cite, once, in the order of first citation.
    method HandleSyncRequest(fromRound: nat, upTo: nat) returns (resp: SyncResponse)
      requires Agree(node.dag.State()) && Keyed(node.dag.certStore) && (syncBatchSize > 0 || fromRound > 0)
      ensures resp.from == fromRound
      ensures resp.to == ToRound(fromRound, if upTo == 0 then node.dag.highestRound else upTo, syncBatchSize)
      ensures Listing(node.dag.State(), fromRound, resp.to + 1, resp.certs)
      ensures resp.batches == BatchesOf(Available(Citations(resp.certs), batchStore))
    {
      var toRound := upTo;
      if toRound == 0 {
        toRound := node.dag.highestRound;
      }
      if toRound + 1 < fromRound || toRound + 1 - fromRound > syncBatchSize {
        toRound := fromRound + syncBatchSize - 1;
      }
      var certs := node.dag.GetOrderedCertificates(fromRound, toRound);
      var batches := CollectBatches(certs);
      resp := SyncResponse(certs, batches, fromRound, toRound);
    }

    method CollectBatches(certs: seq<Certificate>) returns (batches: seq<Batch>)
      ensures batches == BatchesOf(Available(Citations(certs), batchStore))
    {
      batches := [];
      var seen: set<Hash> := {};
      for i := 0 to |certs|
        invariant Gathered(Citations(certs[..i]), batches, seen)
      {
        assert certs[..i + 1][..i] == certs[..i];
        ghost var cs := Citations(certs[..i]);
        assert Citations(certs[..i + 1]) == cs + CitationsOf(certs[i], certs[i].header.batchRefs);
        batches, seen := CollectFrom(certs[i], cs, batches, seen);
      }
      assert certs[..|certs|] == certs;
    }

    ghost predicate Gathered(cs: seq<Citation>, batches: seq<Batch>, seen: set<Hash>)
      reads this
    {
      seen == CitedIn(cs) && batches == BatchesOf(Available(cs, batchStore))
    }

    method CollectFrom(cert: Certificate, ghost cs: seq<Citation>, soFar: seq<Batch>, seenBefore: set<Hash>)
      returns (batches: seq<Batch>, seen: set<Hash>)
      requires Gathered(cs, soFar, seenBefore)
      ensures Gathered(cs + CitationsOf(cert, cert.header.batchRefs), batches, seen)
    {
      var refs := cert.header.batchRefs;
      ghost var all := CitationsOf(cert, refs);
      batches, seen := soFar, seenBefore;
      assert cs + all[..0] == cs;
      for j := 0 to |refs|
        invariant Gathered(cs + all[..j], batches, seen)
      {
        ghost var now := cs + all[..j];
        assert cs + all[..j + 1] == now + [all[j]];
        GatherOne(now, all[j], batches, seen);
        var digest := refs[j].digest;
        if digest !in seen {
          seen := seen + {digest};
          if digest in batchStore {
            batches := batches + [batchStore[digest]];
          }
        }
      }
      assert all[..|refs|] == all;
    }

    lemma GatherOne(cs: seq<Citation>, c: Citation, batches: seq<Batch>, seen: set<Hash>)
      requires Gathered(cs, batches, seen)
      ensures Gathered(cs + [c],
        batches + (if c.digest !in seen && c.digest in batchStore then [batchStore[c.digest]] else []),
        seen + {c.digest})
      ensures c.digest in seen ==> seen + {c.digest} == seen
      ensures batches + [] == batches
    {
      assert (cs + [c])[..|cs|] == cs;
      OneMore(cs, c);
    }

    // Batches first, then every verifying certificate through the ordinary delivery path.
    method HandleSyncResponse(resp: SyncResponse, from: nat, ok: Certificate -> bool) returns (ghost ns: seq<NodeState>)
      requires node.Filed()
      modifies this, node, node.dag
      ensures node.Filed()
      ensures Merged(old(batchStore), resp.batches, batchStore)
      ensures peerHighest ==
        old(peerHighest)[from :=
          if from in old(peerHighest) && old(peerHighest)[from] >= resp.to then old(peerHighest)[from] else resp.to]
      ensures var certs := Verifying(resp.certs, ok); Handling(old(node.Node()), certs, ns)
    {
      if from !in peerHighest || resp.to > peerHighest[from] {
        peerHighest := peerHighest[from := resp.to];
      }
      SaveBatches(resp.batches);
      ns := DeliverAll(resp.certs, ok);
    }

    // The node went from `start` through ns while handling certs.
    ghost predicate Handling(start: NodeState, certs: seq<Certificate>, ns: seq<NodeState>)
      reads node, node.dag
    {
      Receives(node.dag.cfg, certs, seq(|certs|, _ => true), ns) && ns[0] == start && ns[|certs|] == node.Node()
    }

    method DeliverAll(certs: seq<Certificate>, ok: Certificate -> bool) returns (ghost ns: seq<NodeState>)
      requires node.Filed()
      modifies node, node.dag
      ensures node.Filed() && Handling(old(node.Node()), Verifying(certs, ok), ns)
    {
      ns := [node.Node()];
      for i := 0 to |certs|
        invariant node.Filed() && Handling(old(node.Node()), Verifying(certs[..i], ok), ns)
      {
        var c := certs[i];
        assert certs[..i + 1][..i] == certs[..i];
        if ok(c) {
          ghost var sofar, before := Verifying(certs[..i], ok), node.Node();
          node.HandleCertificateMessage(c, true);
          ReceivesOne(node.dag.cfg, sofar, ns, c, node.Node());
          ns := ns + [node.Node()];
        }
      }
      assert certs[..|certs|] == certs;
    }

    // Save each batch that is not stored yet.
    method SaveBatches(batches: seq<Batch>)
      modifies this`batchStore
      ensures Merged(old(batchStore), batches, batchStore)
    {
      for i := 0 to |batches|
        invariant Merged(old(batchStore), batches[..i], batchStore)
      {
        assert batches[..i + 1] == batches[..i] + [batches[i]];
        MergeOne(old(batchStore), batches[..i], batchStore, batches[i]);
        if batches[i].digest !in batchStore {
          batchStore := batchStore[batches[i].digest := batches[i]];
        }
      }
      assert batches[..|batches|] == batches;
    }
  }

  // Stored batches stay; each new digest holds the first batch of the list that has it.
  ghost predicate Merged(before: map<Hash, Batch>, batches: seq<Batch>, after: map<Hash, Batch>) {
    && (forall d :: d in before ==> d in after && after[d] == before[d])
    && (forall i :: 0 <= i < |batches| ==> batches[i].digest in after)
    && (forall d :: d in after && d !in before ==> exists i: nat :: FirstWith(batches, d, i) && after[d] == batches[i])
  }

  ghost predicate FirstWith(batches: seq<Batch>, d: Hash, i: nat) {
    i < |batches| && batches[i].digest == d && forall j :: 0 <= j < i ==> batches[j].digest != d
  }

  lemma MergeOne(before: map<Hash, Batch>, batches: seq<Batch>, after: map<Hash, Batch>, b: Batch)
    requires Merged(before, batches, after)
    ensures Merged(before, batches + [b], if b.digest in after then after else after[b.digest := b])
  {
    var all, after' := batches + [b], if b.digest in after then after else after[b.digest := b];
    forall d | d in after' && d !in before ensures exists i: nat :: FirstWith(all, d, i) && after'[d] == all[i] {
      if d in after {
        var i: nat :| FirstWith(batches, d, i) && after[d] == batches[i];
        assert FirstWith(all, d, i);
      } else {
        assert FirstWith(all, d, |batches|);
      }
    }
  }

  lemma ReceivesOne(cfg: Config, certs: seq<Certificate>, ns: seq<NodeState>, c: Certificate, n: NodeState)
    requires Receives(cfg, certs, seq(|certs|, _ => true), ns) && Receive(cfg, ns[|certs|], Msg(c, true), n)
    ensures Receives(cfg, certs + [c], seq(|certs + [c]|, _ => true), ns + [n])
  {
    var certs', ns' := certs + [c], ns + [n];
    forall i | 0 <= i < |certs'| ensures Receive(cfg, ns'[i], Msg(certs'[i], true), ns'[i + 1]) {
      if i < |certs| { assert Receive(cfg, ns[i], Msg(certs[i], seq(|certs|, _ => true)[i]), ns[i + 1]); }
    }
  }

  // A response that holds only verifying certificates delivers all of them.
  lemma {:induction false} AllVerify(certs: seq<Certificate>, ok: Certificate -> bool)
    requires forall c :: c in certs ==> ok(c)
    ensures Verifying(certs, ok) == certs
  {
    if certs != [] {
      AllVerify(certs[..|certs| - 1], ok);
      assert certs == certs[..|certs| - 1] + [certs[|certs| - 1]];
    }
  }

  // ---- Retrying ----------------------------------------------------------------------------------

  ghost function Doubled(initial: nat, times: nat): nat {
    if times == 0 then initial else 2 * Doubled(initial, times - 1)
  }

  ghost function Capped(x: nat, max: nat): nat { if x > max then max else x }

  // The delay before a retry doubles with each one, up to the cap; an initial delay above the
  // cap is used as it is.
  method Backoff(initial: nat, max: nat, retries: nat) returns (backoff: nat)
    ensures backoff == if initial > max then initial else Capped(Doubled(initial, retries), max)
  {
    backoff := initial;
    var i := 0;
    while i < retries && backoff < max
      invariant 0 <= i <= retries
      invariant backoff == if initial > max then initial else Capped(Doubled(initial, i), max)
    {
      backoff := backoff * 2;
      if backoff > max {
        backoff := max;
      }
      i := i + 1;
    }
    DoubledMono(initial, i, retries);
  }

  lemma {:induction false} DoubledMono(initial: nat, i: nat, j: nat)
    requires i <= j
    ensures Doubled(initial, i) <= Doubled(initial, j)
    decreases j
  {
    if i < j {
      DoubledMono(initial, i, j - 1);
    }
  }

  // So the delay stays within the cap exactly when the initial one does.
  lemma BackoffCappedIff(initial: nat, max: nat, retries: nat)
    ensures var capped := Capped(Doubled(initial, retries), max);
      (if initial > max then initial else capped) == capped <==> initial <= max
  {
    DoubledMono(initial, 0, retries);
  }

  // The delay starts at the initial one and each retry doubles it, up to the cap.
  lemma BackoffDoubles(initial: nat, max: nat, retries: nat)
    requires initial <= max
    ensures Capped(Doubled(initial, 0), max) == initial
    ensures var now, next := Capped(Doubled(initial, retries), max), Capped(Doubled(initial, retries + 1), max);
      next == if now + now > max then max else now + now
  {}
}
