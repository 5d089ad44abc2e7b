// The in-memory certificate store (store/memory_cert.go).
module CertStore {
  import opened Types
  import opened Lists

  datatype CertState = CertState(
    certs: map<Hash, Certificate>, byRound: map<nat, seq<Hash>>, byValidator: map<nat, map<nat, Hash>>)

  // ---- Specification --------------------------------------------------------------------------

  ghost function Listed(byRound: map<nat, seq<Hash>>, r: nat): seq<Hash> {
    if r in byRound then byRound[r] else []
  }

  ghost function Authored(byValidator: map<nat, map<nat, Hash>>, r: nat): map<nat, Hash> {
    if r in byValidator then byValidator[r] else map[]
  }

  ghost function SaveSpec(s: CertState, c: Certificate): CertState {
    if c.Digest() in s.certs then s
    else CertState(
      s.certs[c.Digest() := c],
      s.byRound[c.Round() := Listed(s.byRound, c.Round()) + [c.Digest()]],
      s.byValidator[c.Round() := Authored(s.byValidator, c.Round())[c.Author() := c.Digest()]])
  }

  ghost function DeleteBeforeSpec(s: CertState, cutoff: nat): CertState {
    CertState(
      map d | d in s.certs && s.certs[d].Round() >= cutoff :: s.certs[d],
      map r | r in s.byRound && r >= cutoff :: s.byRound[r],
      map r | r in s.byValidator && r >= cutoff :: s.byValidator[r])
  }

  // ---- Properties -------------------------------------------------------------------------------

  // The three maps describe the same certificates.
  ghost predicate Consistent(s: CertState) {
    && (forall d :: d in s.certs ==> s.certs[d].Digest() == d && d in Listed(s.byRound, s.certs[d].Round()))
    && (forall r, i :: r in s.byRound && 0 <= i < |s.byRound[r]| ==>
          s.byRound[r][i] in s.certs && s.certs[s.byRound[r][i]].Round() == r)
    && (forall r :: r in s.byRound ==> NoDup(s.byRound[r])) && s.byRound.Keys == s.byValidator.Keys
    && (forall r, a :: r in s.byValidator && a in s.byValidator[r] ==>
          s.byValidator[r][a] in s.certs && s.certs[s.byValidator[r][a]].Round() == r
            && s.certs[s.byValidator[r][a]].Author() == a)
  }

  // The stored certificates of a round.
  ghost function OfRound(s: CertState, r: nat): set<Certificate> {
    set d | d in s.certs && s.certs[d].Round() == r :: s.certs[d]
  }

  lemma SaveKeepsConsistent(s: CertState, c: Certificate)
    requires Consistent(s)
    ensures Consistent(SaveSpec(s, c))
  {
    if c.Digest() !in s.certs {
      var r, s' := c.Round(), SaveSpec(s, c);
      assert c.Digest() !in Listed(s.byRound, r);
      assert s'.byRound[r][|Listed(s.byRound, r)|] == c.Digest();
      forall d | d in s'.certs ensures d in Listed(s'.byRound, s'.certs[d].Round()) {
        if d != c.Digest() {
          assert d in Listed(s.byRound, s.certs[d].Round());
        }
      }
    }
  }

  // Every stored certificate's round and author lead to a stored certificate of theirs.
  ghost predicate Findable(s: CertState) {
    forall d :: d in s.certs ==> s.certs[d].Author() in Authored(s.byValidator, s.certs[d].Round())
  }

  // The newest certificate of a round and author is the one found, and deletions of lower rounds lose
  // none.
  lemma SaveKeepsFindable(s: CertState, c: Certificate, cutoff: nat)
    requires Findable(s)
    ensures Findable(SaveSpec(s, c)) && Findable(DeleteBeforeSpec(s, cutoff))
    ensures c.Digest() !in s.certs ==> Authored(SaveSpec(s, c).byValidator, c.Round())[c.Author()] == c.Digest()
  {
    var s' := DeleteBeforeSpec(s, cutoff);
    forall d | d in s'.certs ensures s'.certs[d].Author() in Authored(s'.byValidator, s'.certs[d].Round()) {
      assert s.certs[d].Author() in Authored(s.byValidator, s.certs[d].Round());
    }
  }

  lemma DeleteKeepsConsistent(s: CertState, cutoff: nat)
    requires Consistent(s)
    ensures Consistent(DeleteBeforeSpec(s, cutoff))
  {
    var s' := DeleteBeforeSpec(s, cutoff);
    forall d | d in s'.certs ensures d in Listed(s'.byRound, s'.certs[d].Round()) {
      assert d in Listed(s.byRound, s.certs[d].Round());
    }
  }

  // A saved certificate joins its round and no other.
  lemma SaveOfRound(s: CertState, c: Certificate, r: nat)
    ensures OfRound(SaveSpec(s, c), r) >= OfRound(s, r)
    ensures c.Digest() !in s.certs && c.Round() == r ==> OfRound(SaveSpec(s, c), r) == OfRound(s, r) + {c}
    ensures c.Round() != r ==> OfRound(SaveSpec(s, c), r) == OfRound(s, r)
  {
    var s' := SaveSpec(s, c);
    assert forall d :: d in s.certs ==> d in s'.certs && s'.certs[d] == s.certs[d];
    if c.Digest() !in s.certs && c.Round() == r {
      assert s'.certs[c.Digest()] == c;
      assert forall x :: x in OfRound(s', r) ==> x in OfRound(s, r) + {c};
      assert forall x :: x in OfRound(s, r) + {c} ==> x in OfRound(s', r);
    }
  }

  // ---- The program --------------------------------------------------------------------------------

  class MemoryCertificateStore {
    var certs: map<Hash, Certificate>
    var byRound: map<nat, seq<Hash>>
    var byValidator: map<nat, map<nat, Hash>>

    ghost function State(): CertState
      reads this
    {
      CertState(certs, byRound, byValidator)
    }

    constructor ()
      ensures State() == CertState(map[], map[], map[]) && Consistent(State())
    {
      certs, byRound, byValidator := map[], map[], map[];
    }

    method SaveCertificate(c: Certificate)
      modifies this
      ensures State() == SaveSpec(old(State()), c)
    {
      if c.Digest() in certs {
        return;
      }
      certs := certs[c.Digest() := c];
      var r := c.Round();
      byRound := byRound[r := (if r in byRound then byRound[r] else []) + [c.Digest()]];
      var authors: map<nat, Hash> := if r in byValidator then byValidator[r] else map[];
      byValidator := byValidator[r := authors[c.Author() := c.Digest()]];
    }

    // Every stored certificate of the round, once.
    method GetCertificatesByRound(r: nat) returns (out: seq<Certificate>)
      requires Consistent(State())
      ensures Elems(out) == OfRound(State(), r) && NoDup(out) && |out| == |OfRound(State(), r)|
      ensures |out| == |Listed(byRound, r)|
    {
      out := [];
      if r in byRound {
        var digests := byRound[r];
        for i := 0 to |digests|
          invariant |out| == i && forall j :: 0 <= j < i ==> out[j] == certs[digests[j]]
        {
          if digests[i] in certs {
            out := out + [certs[digests[i]]];
          }
        }
        assert forall j :: 0 <= j < |out| ==> out[j].Digest() == digests[j];
      }
      forall c | c in OfRound(State(), r) ensures c in out {
        assert c.Digest() in Listed(byRound, r);
      }
      assert Elems(out) == OfRound(State(), r);
      NoDupCardinality(out);
    }

    method DeleteCertificatesBefore(cutoff: nat)
      requires Consistent(State())
      modifies this
      ensures State() == DeleteBeforeSpec(old(State()), cutoff)
      ensures forall d :: d in certs <==> d in old(certs) && old(certs)[d].Round() >= cutoff
      ensures forall d :: d in certs ==> certs[d] == old(certs)[d]
    {
      var left := byRound.Keys;
      ghost var gone: set<nat> := {};
      WithoutNone(State());
      while left != {}
        invariant left <= byRound.Keys && State() == WithoutRounds(old(State()), gone)
        invariant forall r :: r in gone ==> r < cutoff
        invariant forall r :: r in byRound ==> r in left || r >= cutoff
        decreases left
      {
        var r := Pick(left);
        if r < cutoff {
          DeleteRound(r, old(State()), gone);
          gone := gone + {r};
        }
        left := left - {r};
      }
      WithoutOld(old(State()), gone, cutoff);
    }

    method DeleteRound(r: nat, ghost before: CertState, ghost gone: set<nat>)
      requires Consistent(before) && State() == WithoutRounds(before, gone) && r in byRound
      modifies this
      ensures State() == WithoutRounds(before, gone + {r})
    {
      var digests := byRound[r];
      for i := 0 to |digests|
        invariant byRound == old(byRound) && byValidator == old(byValidator)
        invariant certs == old(certs) - Elems(digests[..i])
      {
        assert digests[..i + 1] == digests[..i] + [digests[i]];
        certs := certs - {digests[i]};
      }
      assert digests[..|digests|] == digests;
      byRound := byRound - {r};
      byValidator := byValidator - {r};
      WithoutOne(before, gone, r);
    }
  }

  // The store with whole rounds taken out.
  ghost function WithoutRounds(s: CertState, gone: set<nat>): CertState {
    CertState(map d | d in s.certs && s.certs[d].Round() !in gone :: s.certs[d], s.byRound - gone, s.byValidator - gone)
  }

  lemma WithoutNone(s: CertState)
    ensures WithoutRounds(s, {}) == s
  {
    assert WithoutRounds(s, {}).certs == s.certs;
    assert s.byRound - {} == s.byRound && s.byValidator - {} == s.byValidator;
  }

  lemma WithoutOne(s: CertState, gone: set<nat>, r: nat)
    requires Consistent(s) && r in s.byRound && r !in gone
    ensures var t := WithoutRounds(s, gone);
      WithoutRounds(s, gone + {r}) == CertState(t.certs - Elems(s.byRound[r]), t.byRound - {r}, t.byValidator - {r})
  {
    var t := WithoutRounds(s, gone);
    forall d | d in s.certs ensures d in Elems(s.byRound[r]) <==> s.certs[d].Round() == r {
      assert d in Listed(s.byRound, s.certs[d].Round());
    }
    assert WithoutRounds(s, gone + {r}).certs == t.certs - Elems(s.byRound[r]);
    assert s.byRound - (gone + {r}) == t.byRound - {r};
    assert s.byValidator - (gone + {r}) == t.byValidator - {r};
  }

  lemma WithoutOld(s: CertState, gone: set<nat>, cutoff: nat)
    requires Consistent(s) && (forall r :: r in gone ==> r < cutoff)
    requires forall r :: r in WithoutRounds(s, gone).byRound ==> r >= cutoff
    ensures WithoutRounds(s, gone) == DeleteBeforeSpec(s, cutoff)
  {
    var t, u := WithoutRounds(s, gone), DeleteBeforeSpec(s, cutoff);
    forall d | d in s.certs ensures s.certs[d].Round() !in gone <==> s.certs[d].Round() >= cutoff {
      assert d in Listed(s.byRound, s.certs[d].Round());
      assert s.certs[d].Round() in s.byRound;
    }
    assert t.certs == u.certs && t.byRound == u.byRound;
    forall r | r in s.byValidator ensures r !in gone <==> r >= cutoff {
      assert r in s.byRound.Keys;
      assert r !in gone ==> r in t.byRound;
    }
    assert t.byValidator == u.byValidator;
  }
}
