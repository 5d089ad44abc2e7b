// Quorum arithmetic (types/validator.go) and what it guarantees about any two quorums.
module Quorum {
  import opened Lists

  // f = (n - 1) / 3, truncating toward zero.
  function F(n: nat): nat {
    if n == 0 then 0 else (n - 1) / 3
  }

  function QuorumSize(n: nat): nat {
    2 * F(n) + 1
  }

  // A set of validators large enough to form a certificate.
  ghost predicate IsQuorum(validators: set<nat>, q: set<nat>) {
    q <= validators && |q| >= QuorumSize(|validators|)
  }

  ghost predicate FewFaulty(validators: set<nat>, faulty: set<nat>) {
    faulty <= validators && |faulty| <= F(|validators|)
  }

  // Some member of a quorum minus the faulty: at least f + 1 of them.
  lemma CorrectMembers(validators: set<nat>, q: set<nat>, faulty: set<nat>)
    requires |q| >= QuorumSize(|validators|) && FewFaulty(validators, faulty)
    ensures |q - faulty| >= F(|validators|) + 1
  {
    CardMono(q * faulty, faulty);
    assert |q| == |q - faulty| + |q * faulty| by { assert q == (q - faulty) + (q * faulty); }
  }

  // The correct validators alone always make a quorum.
  lemma CorrectSuffice(validators: set<nat>, faulty: set<nat>)
    requires validators != {} && FewFaulty(validators, faulty)
    ensures IsQuorum(validators, validators - faulty)
  {
    assert |validators - faulty| == |validators| - |faulty|;
  }

  // Any two quorums overlap in at least 4f + 2 - n validators.
  lemma QuorumsOverlap(validators: set<nat>, a: set<nat>, b: set<nat>)
    requires IsQuorum(validators, a) && IsQuorum(validators, b)
    ensures |a * b| >= 4 * F(|validators|) + 2 - |validators|
  {
    CardMono(a + b, validators);
    assert |a + b| == |a| + |b| - |a * b|;
  }

  ghost predicate Between(lo: nat, i: nat, hi: nat) { lo <= i < hi }

  ghost function Range(lo: nat, hi: nat): set<nat> {
    set i: nat | i < hi && Between(lo, i, hi)
  }

  lemma {:induction false} RangeSize(lo: nat, hi: nat)
    requires lo <= hi
    ensures |Range(lo, hi)| == hi - lo
    decreases hi
  {
    if lo == hi {
      assert Range(lo, hi) == {};
    } else {
      RangeSize(lo, hi - 1);
      assert Range(lo, hi) == Range(lo, hi - 1) + {hi - 1};
    }
  }

  // The bound is attained: for every n there are two quorums that overlap in no more.
  lemma OverlapIsTight(n: nat) returns (a: set<nat>, b: set<nat>)
    requires n > 0
    ensures IsQuorum(Range(0, n), a) && IsQuorum(Range(0, n), b) && |Range(0, n)| == n
    ensures a == Range(0, QuorumSize(n)) && b == Range(n - QuorumSize(n), n)
    ensures |a * b| == if 4 * F(n) + 2 > n then 4 * F(n) + 2 - n else 0
  {
    var q := QuorumSize(n);
    a, b := Range(0, q), Range(n - q, n);
    RangeSize(0, n);
    RangeSize(0, q);
    RangeSize(n - q, n);
    RangesMeet(q, n);
    if n - q <= q { RangeSize(n - q, q); }
  }

  lemma RangesMeet(q: nat, n: nat)
    requires q <= n
    ensures Range(0, q) <= Range(0, n) && Range(n - q, n) <= Range(0, n)
    ensures Range(0, q) * Range(n - q, n) == if n - q <= q then Range(n - q, q) else {}
  {}

  // Every two quorums over n validators share a correct one, whichever f are faulty.
  ghost predicate AlwaysShareCorrect(n: nat) {
    forall validators: set<nat>, a: set<nat>, b: set<nat>, faulty: set<nat> ::
      |validators| == n && IsQuorum(validators, a) && IsQuorum(validators, b) && FewFaulty(validators, faulty) ==>
        a * b - faulty != {}
  }

  lemma ShareCorrect(validators: set<nat>, a: set<nat>, b: set<nat>, faulty: set<nat>)
    requires |validators| % 3 == 1 && IsQuorum(validators, a) && IsQuorum(validators, b)
      && FewFaulty(validators, faulty)
    ensures |a * b| >= F(|validators|) + 1 && a * b - faulty != {}
  {
    QuorumsOverlap(validators, a, b);
    if a * b - faulty == {} {
      EmptyDifference(a * b, faulty);
      CardMono(a * b, faulty);
    }
  }

  // Two certificates are sure to share a correct voter exactly when n = 3f + 1: with one or
  // two validators more, the shared voters can all be faulty.
  lemma ShareCorrectIff(n: nat)
    requires n > 0
    ensures AlwaysShareCorrect(n) <==> n % 3 == 1
  {
    if n % 3 == 1 {
      forall validators: set<nat>, a: set<nat>, b: set<nat>, faulty: set<nat>
        | |validators| == n && IsQuorum(validators, a) && IsQuorum(validators, b) && FewFaulty(validators, faulty)
        ensures a * b - faulty != {}
      {
        ShareCorrect(validators, a, b, faulty);
      }
    } else {
      var a, b := OverlapIsTight(n);
      var faulty := a * b;
      assert FewFaulty(Range(0, n), faulty);
      assert a * b - faulty == {};
    }
  }
}
