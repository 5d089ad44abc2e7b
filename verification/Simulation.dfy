// The primary as a program takes the steps of the protocol between validators (primary/primary.go):
// a call that votes is a vote step, and a call that makes a header is a header step, with the same
// signature and the same queue left behind.
module Simulation {
  import opened Types
  import opened Protocol
  import opened RoundsImpl
  import CertStore
  import Fetcher
  import Rounds
  import Votes

  ghost function Digests(queue: seq<BatchRef>): set<Hash> { set ref | ref in queue :: ref.digest }

  // ---- The queue as a set ----------------------------------------------------------------------------

  lemma DigestsAppend(a: seq<BatchRef>, b: seq<BatchRef>)
    ensures Digests(a + b) == Digests(a) + Digests(b)
  {
    forall d | d in Digests(a + b) ensures d in Digests(a) + Digests(b) {
      var ref :| ref in a + b && ref.digest == d;
      assert ref in a || ref in b;
    }
    forall d | d in Digests(a) + Digests(b) ensures d in Digests(a + b) {
      var ref :| (ref in a || ref in b) && ref.digest == d;
      assert ref in a + b;
    }
  }

  lemma {:induction false} PartsAsSets(queue: seq<BatchRef>, acked: set<Hash>)
    ensures Digests(Rounds.Only(queue, acked)) == Digests(queue) * acked
    ensures Digests(Rounds.Except(queue, acked)) == Digests(queue) - acked
    decreases |queue|
  {
    if queue != [] {
      var front, last := queue[..|queue| - 1], queue[|queue| - 1];
      PartsAsSets(front, acked);
      assert queue == front + [last] && Digests([last]) == {last.digest};
      DigestsAppend(front, [last]);
      DigestsAppend(Rounds.Only(front, acked), [last]);
      DigestsAppend(Rounds.Except(front, acked), [last]);
      assert Rounds.Only(front, acked) + [] == Rounds.Only(front, acked);
      assert Rounds.Except(front, acked) + [] == Rounds.Except(front, acked);
    }
  }

  lemma SplitAsSets(queue: seq<BatchRef>, acked: set<Hash>, max: nat, ready: seq<BatchRef>, rest: seq<BatchRef>)
    requires Rounds.Split(queue, acked, max, ready, rest)
    ensures Digests(ready) <= Digests(queue) * acked && Digests(ready) + Digests(rest) == Digests(queue)
  {
    var k: nat :| Rounds.SplitAt(queue, acked, max, k, ready, rest);
    var front, back := queue[..k], queue[k..];
    assert queue == front + back;
    DigestsAppend(front, back);
    PartsAsSets(front, acked);
    DigestsAppend(Rounds.Except(front, acked), back);
  }

  // ---- The steps ---------------------------------------------------------------------------------------

  // The node is what the primary and its fetcher hold.
  ghost predicate Holds(n: Node, peer: Rounds.Peer, stored: set<Hash>, queue: seq<BatchRef>) {
    n.peer == peer && n.stored == stored && n.queue == Digests(queue)
  }

  // A header from a peer, whose signature exists if it is the author's: the primary votes exactly
  // when the protocol's vote step is enabled, the step adds its signature, and the node still stands
  // for the program's state.
  method HandleHeader(ghost c: Setting, ghost w: World, p: Primary, fetcher: Fetcher.BatchFetcher, h: Header,
                      nonce: nat)
    returns (v: Rounds.Validity, vote: Option<Vote>, ghost w': World)
    requires p.self in w.nodes && Holds(w.nodes[p.self], p.AsPeer(), fetcher.stored, p.queue) && Known(c, h)
    requires Votes.Signed(h.signature, h.author, h.digest) ==> h.signature in w.sigs
    modifies fetcher
    ensures vote.Some? <==> Enabled(c, w, VoteFor(p.self, h, nonce))
    ensures w' == if vote.Some? then Next(c, w, VoteFor(p.self, h, nonce)) else w
    ensures vote.Some? ==> vote.value.signature in w'.sigs && Voted(p.self, h, w.nodes[p.self]) in w'.signings
    ensures p.self in w'.nodes && Holds(w'.nodes[p.self], p.AsPeer(), fetcher.stored, p.queue)
  {
    v, vote := p.HandleHeader(h, fetcher, nonce);
    w' := if vote.Some? then Next(c, w, VoteFor(p.self, h, nonce)) else w;
  }

  // A tick of the header loop: a header it makes is an enabled header step that leaves the same
  // queue, and a tick that makes none changes nothing.
  method TryCreateHeader(ghost c: Setting, ghost w: World, p: Primary, fetcher: Fetcher.BatchFetcher,
                         acked: set<Hash>, digest: Hash, nonce: nat, now: int)
    returns (header: Option<Header>, ghost w': World)
    requires p.self in w.nodes && Holds(w.nodes[p.self], p.AsPeer(), fetcher.stored, p.queue)
    requires CertStore.Consistent(p.store.State()) && forall d :: d in acked ==> Acked(c, w.nodes[p.self], d)
    modifies p`queue
    ensures header.Some? && Known(c, header.value) ==>
      var step := MakeHeader(p.self, header.value, nonce, Digests(p.queue));
      && Enabled(c, w, step) && w' == Next(c, w, step) && header.value.signature in w'.sigs
      && p.self in w'.nodes && Holds(w'.nodes[p.self], p.AsPeer(), fetcher.stored, p.queue)
    ensures header.None? ==> w' == w && Holds(w'.nodes[p.self], p.AsPeer(), fetcher.stored, p.queue)
  {
    ghost var before := p.queue;
    header := p.TryCreateHeader(acked, digest, nonce, now);
    w' := w;
    if header.Some? {
      SplitAsSets(before, acked, p.maxBatchesPerHeader, header.value.batchRefs, p.queue);
      if Known(c, header.value) {
        assert header.value.BatchDigests() == Digests(header.value.batchRefs);
        w' := Next(c, w, MakeHeader(p.self, header.value, nonce, Digests(p.queue)));
        assert Digests(before) - (Digests(header.value.batchRefs) - Digests(p.queue)) == Digests(p.queue);
      }
    }
  }
}
