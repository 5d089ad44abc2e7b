// The certificate handlers of the Looseberry object, proved against module Orphans.
module Delivery {
  import opened Types
  import opened Lists
  import opened History
  import opened Dag
  import opened DagImpl
  import opened Orphans

  class Looseberry {
    const dag: DAG
    var orphanCerts: map<Hash, Certificate>

    ghost function Node(): NodeState
      reads this, dag
    {
      NodeState(dag.State(), orphanCerts)
    }

    constructor (dag: DAG)
      ensures this.dag == dag && orphanCerts == map[]
    {
      this.dag := dag;
      orphanCerts := map[];
    }

    // Every buffered certificate is filed under its own digest.
    ghost predicate Filed()
      reads this
    {
      Keyed(orphanCerts)
    }

    method HandleCertificateMessage(c: Certificate, verified: bool)
      requires Filed()
      modifies this, dag
      ensures Filed() && Delivered(dag.cfg, old(Node()), Msg(c, verified), Node())
    {
      // Primary.HandleCertificate
      if verified && dag.cfg.hasStore && c.Digest() !in dag.certStore {
        dag.certStore := dag.certStore[c.Digest() := c];
      }
      assert dag.State() == PrimarySaves(dag.cfg, old(dag.State()), Msg(c, verified));
      var res := dag.AddCertificate(c);
      if res == MissingParents {
        BufferOrphanCert(c);
      } else if res == Added {
        ReplayOrphanCerts();
      }
    }

    method BufferOrphanCert(c: Certificate)
      requires Filed()
      modifies this
      ensures Filed() && orphanCerts == Buffered(old(orphanCerts), c)
    {
      if |orphanCerts| >= ORPHAN_CERT_CAP {
        return;
      }
      if c.Digest() in orphanCerts {
        return;
      }
      orphanCerts := orphanCerts[c.Digest() := c];
    }

    // Passes over the buffer until one adds nothing; each productive pass shrinks the buffer.
    method ReplayOrphanCerts()
      requires Filed()
      modifies this, dag
      ensures Filed() && Drained(dag.cfg, old(Node()), Node())
    {
      ghost var start := Node();
      ghost var tries: seq<Certificate> := [];
      while true
        invariant Filed() && Tries(dag.cfg, start, tries) && Node() == Replayed(dag.cfg, start, tries)
        decreases |orphanCerts|
      {
        if |orphanCerts| == 0 {
          return;
        }
        ghost var attempted;
        var added;
        added, attempted := ReplayPass();
        ReplayMore(dag.cfg, start, tries, attempted);
        tries := tries + attempted;
        if added == 0 {
          return;
        }
      }
    }

    // One pass: try every certificate that was buffered when the pass began.
    method ReplayPass() returns (added: nat, ghost tries: seq<Certificate>)
      requires Filed()
      modifies this, dag
      ensures Filed() && Tries(dag.cfg, old(Node()), tries) && Node() == Replayed(dag.cfg, old(Node()), tries)
      ensures added == 0 ==> Quiet(Node())
      ensures added > 0 ==> |orphanCerts| < |old(orphanCerts)|
    {
      ghost var start := Node();
      var batch := orphanCerts;
      var todo := batch.Keys;
      added, tries := 0, [];
      while todo != {}
        invariant Filed() && Tries(dag.cfg, start, tries) && Node() == Replayed(dag.cfg, start, tries)
        invariant todo <= orphanCerts.Keys <= batch.Keys && forall d :: d in orphanCerts ==> orphanCerts[d] == batch[d]
        invariant added == 0 ==>
          orphanCerts == batch && forall d :: d in batch - todo ==> AddOutcome(dag.State(), batch[d]) != Added
        invariant added > 0 ==> orphanCerts.Keys < batch.Keys
        decreases todo
      {
        var d := Pick(todo);
        todo := todo - {d};
        var c := batch[d];
        ghost var before := dag.State();
        assert (tries + [c])[..|tries|] == tries;
        var res := dag.AddCertificate(c);
        tries := tries + [c];
        if res == Added {
          orphanCerts := orphanCerts - {c.Digest()};
          added := added + 1;
        } else {
          RejectKeepsOutcomes(dag.cfg, before, c);
        }
      }
      if added > 0 {
        StrictlyFewer(orphanCerts.Keys, batch.Keys);
        assert |orphanCerts| == |orphanCerts.Keys| && |batch| == |batch.Keys|;
      }
    }

    // A locally formed certificate: saved by the primary, added to the DAG, nothing replayed.
    method OnCertificateFormed(c: Certificate)
      modifies this, dag
      ensures Node() == Formed(dag.cfg, old(Node()), c)
    {
      if dag.cfg.hasStore && c.Digest() !in dag.certStore {
        dag.certStore := dag.certStore[c.Digest() := c];
      }
      assert dag.State() == PrimarySaves(dag.cfg, old(dag.State()), Msg(c, true));
      var _ := dag.AddCertificate(c);
    }
  }

  lemma StrictlyFewer<T>(a: set<T>, b: set<T>)
    requires a < b
    ensures |a| < |b|
  {
    var x :| x in b && x !in a;
    CardMono(a, b - {x});
  }

  // A rejected certificate does not change how any other would fare.
  lemma RejectKeepsOutcomes(cfg: Config, s: DagState, c: Certificate)
    requires AddOutcome(s, c) != Added
    ensures forall x :: AddOutcome(AddSpec(cfg, s, c), x) == AddOutcome(s, x)
  {}

  lemma ReplayedSnoc(cfg: Config, n: NodeState, tries: seq<Certificate>, c: Certificate)
    ensures Replayed(cfg, n, tries + [c]) == Attempt(cfg, Replayed(cfg, n, tries), c)
    ensures Tries(cfg, n, tries + [c]) <==> Tries(cfg, n, tries) && Orphaned(Replayed(cfg, n, tries), c)
  {
    assert (tries + [c])[..|tries|] == tries;
  }

  lemma {:induction false} ReplayMore(cfg: Config, n: NodeState, tries: seq<Certificate>, more: seq<Certificate>)
    requires Tries(cfg, n, tries) && Tries(cfg, Replayed(cfg, n, tries), more)
    ensures Tries(cfg, n, tries + more)
    ensures Replayed(cfg, n, tries + more) == Replayed(cfg, Replayed(cfg, n, tries), more)
    decreases |more|
  {
    if more == [] {
      assert tries + more == tries;
    } else {
      var front, last := more[..|more| - 1], more[|more| - 1];
      assert more == front + [last] && tries + more == (tries + front) + [last];
      ReplayedSnoc(cfg, Replayed(cfg, n, tries), front, last);
      ReplayMore(cfg, n, tries, front);
      ReplayedSnoc(cfg, n, tries + front, last);
    }
  }
}
