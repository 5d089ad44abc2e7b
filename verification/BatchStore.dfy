// The in-memory batch store (store/memory_batch.go), and what any batch store does.
module BatchStore {
  import opened Types
  import opened Lists

  // ---- What a batch store does --------------------------------------------------------------------

  type Contents = map<Hash, Batch>

  ghost function SaveSpec(m: Contents, b: Batch): Contents {
    if b.digest in m then m else m[b.digest := b]
  }

  ghost function DeleteBeforeSpec(m: Contents, cutoff: nat): Contents {
    map d | d in m && m[d].round >= cutoff :: m[d]
  }

  ghost function OfRound(m: Contents, r: nat): set<Batch> {
    set d | d in m && m[d].round == r :: m[d]
  }

  ghost predicate Keyed(m: Contents) {
    forall d :: d in m ==> m[d].digest == d
  }

  // ---- What a store holds after a run -----------------------------------------------------------------

  datatype StoreEvent = Put(b: Batch) | DeleteBelow(cutoff: nat)

  ghost function Held(es: seq<StoreEvent>): Contents {
    if es == [] then map[]
    else
      var m := Held(es[..|es| - 1]);
      match es[|es| - 1]
      case Put(b) => SaveSpec(m, b)
      case DeleteBelow(cutoff) => DeleteBeforeSpec(m, cutoff)
  }

  // Event k saved the batch when none was stored under its digest, and no deletion has passed its
  // round since.
  ghost predicate SavedAt(es: seq<StoreEvent>, k: nat, b: Batch) {
    && k < |es| && es[k] == Put(b) && b.digest !in Held(es[..k])
    && forall j :: k < j < |es| && es[j].DeleteBelow? ==> es[j].cutoff <= b.round
  }

  lemma SavedSnoc(es: seq<StoreEvent>, e: StoreEvent, k: nat, b: Batch)
    requires k < |es|
    ensures SavedAt(es + [e], k, b) <==> SavedAt(es, k, b) && !(e.DeleteBelow? && b.round < e.cutoff)
  {
    var all := es + [e];
    assert all[..k] == es[..k] && all[k] == es[k] && all[|es|] == e;
    if SavedAt(all, k, b) {
      assert forall j :: k < j < |es| ==> all[j] == es[j];
    }
  }

  // In every run the store holds, under each digest, exactly the batch that was first saved under it
  // since it was last free, unless a deletion has passed its round.
  lemma {:induction false} HoldsIff(es: seq<StoreEvent>, b: Batch)
    ensures b.digest in Held(es) && Held(es)[b.digest] == b <==> exists k: nat :: SavedAt(es, k, b)
    decreases |es|
  {
    if es != [] {
      var before, e := es[..|es| - 1], es[|es| - 1];
      assert es == before + [e];
      HoldsIff(before, b);
      forall k: nat | k < |before|
        ensures SavedAt(es, k, b) <==> SavedAt(before, k, b) && !(e.DeleteBelow? && b.round < e.cutoff)
      {
        SavedSnoc(before, e, k, b);
      }
      if k: nat :| SavedAt(before, k, b) && !(e.DeleteBelow? && b.round < e.cutoff) {
        assert SavedAt(es, k, b);
      }
      if e == Put(b) && b.digest !in Held(before) {
        assert es[..|before|] == before;
        assert SavedAt(es, |before|, b);
      }
    }
  }

  // ---- The program -----------------------------------------------------------------------------------

  ghost function Listed(byRound: map<nat, seq<Hash>>, r: nat): seq<Hash> {
    if r in byRound then byRound[r] else []
  }

  // The round index lists exactly the stored batches, once each.
  ghost predicate Indexed(m: Contents, byRound: map<nat, seq<Hash>>) {
    && Keyed(m)
    && (forall d :: d in m ==> d in Listed(byRound, m[d].round))
    && (forall r, i :: r in byRound && 0 <= i < |byRound[r]| ==> byRound[r][i] in m && m[byRound[r][i]].round == r)
    && (forall r :: r in byRound ==> NoDup(byRound[r]))
  }

  class MemoryBatchStore {
    var batches: map<Hash, Batch>
    var byRound: map<nat, seq<Hash>>

    ghost predicate Valid()
      reads this
    {
      Indexed(batches, byRound)
    }

    constructor ()
      ensures Valid() && batches == map[]
    {
      batches, byRound := map[], map[];
    }

    method SaveBatch(b: Batch)
      requires Valid()
      modifies this
      ensures Valid() && batches == SaveSpec(old(batches), b)
    {
      if b.digest in batches {
        return;
      }
      batches := batches[b.digest := b];
      byRound := byRound[b.round := (if b.round in byRound then byRound[b.round] else []) + [b.digest]];
      SaveIndexed(old(batches), old(byRound), b);
    }

    method GetBatch(d: Hash) returns (b: Option<Batch>)
      ensures b == if d in batches then Some(batches[d]) else None
    {
      if d !in batches {
        return None;
      }
      return Some(batches[d]);
    }

    method GetBatchesByRound(r: nat) returns (out: seq<Batch>)
      requires Valid()
      ensures Elems(out) == OfRound(batches, r) && NoDup(out)
    {
      out := [];
      if r in byRound {
        var digests := byRound[r];
        for i := 0 to |digests|
          invariant |out| == i && forall j :: 0 <= j < i ==> out[j] == batches[digests[j]]
        {
          if digests[i] in batches {
            out := out + [batches[digests[i]]];
          }
        }
        assert forall j :: 0 <= j < |out| ==> out[j].digest == digests[j];
      }
      forall b | b in OfRound(batches, r) ensures b in out {
        assert b.digest in Listed(byRound, r);
      }
    }

    method DeleteBatchesBefore(cutoff: nat)
      requires Valid()
      modifies this
      ensures Valid() && batches == DeleteBeforeSpec(old(batches), cutoff)
    {
      var left := byRound.Keys;
      ghost var gone: set<nat> := {};
      assert batches == WithoutRounds(batches, {}) && byRound == byRound - {};
      while left != {}
        invariant left <= byRound.Keys && batches == WithoutRounds(old(batches), gone) && byRound == old(byRound) - gone
        invariant forall r :: r in gone ==> r < cutoff
        invariant forall r :: r in byRound ==> r in left || r >= cutoff
        decreases left
      {
        var r := Pick(left);
        if r < cutoff {
          DeleteRound(r, old(batches), old(byRound), gone);
          gone := gone + {r};
        }
        left := left - {r};
      }
      WithoutOld(old(batches), old(byRound), gone, cutoff);
    }

    method DeleteRound(r: nat, ghost m: Contents, ghost index: map<nat, seq<Hash>>, ghost gone: set<nat>)
      requires Indexed(m, index) && batches == WithoutRounds(m, gone) && byRound == index - gone && r in byRound
      modifies this
      ensures batches == WithoutRounds(m, gone + {r}) && byRound == index - (gone + {r})
    {
      var digests := byRound[r];
      for i := 0 to |digests|
        invariant byRound == old(byRound) && batches == old(batches) - Elems(digests[..i])
      {
        assert digests[..i + 1] == digests[..i] + [digests[i]];
        batches := batches - {digests[i]};
      }
      assert digests[..|digests|] == digests;
      byRound := byRound - {r};
      forall d | d in m ensures d in Elems(index[r]) <==> m[d].round == r {
        assert d in Listed(index, m[d].round);
      }
      assert batches == WithoutRounds(m, gone + {r});
      assert byRound == index - (gone + {r});
    }
  }

  lemma SaveIndexed(m: Contents, byRound: map<nat, seq<Hash>>, b: Batch)
    requires Indexed(m, byRound) && b.digest !in m
    ensures Indexed(m[b.digest := b], byRound[b.round := Listed(byRound, b.round) + [b.digest]])
  {
    var m', index := m[b.digest := b], byRound[b.round := Listed(byRound, b.round) + [b.digest]];
    assert b.digest !in Listed(byRound, b.round);
    assert index[b.round][|Listed(byRound, b.round)|] == b.digest;
    forall d | d in m' ensures d in Listed(index, m'[d].round) {
      if d != b.digest {
        assert d in Listed(byRound, m[d].round);
      }
    }
  }

  ghost function WithoutRounds(m: Contents, gone: set<nat>): Contents {
    map d | d in m && m[d].round !in gone :: m[d]
  }

  lemma WithoutOld(m: Contents, byRound: map<nat, seq<Hash>>, gone: set<nat>, cutoff: nat)
    requires Indexed(m, byRound) && (forall r :: r in gone ==> r < cutoff)
      && forall r :: r in byRound - gone ==> r >= cutoff
    ensures WithoutRounds(m, gone) == DeleteBeforeSpec(m, cutoff)
      && Indexed(DeleteBeforeSpec(m, cutoff), byRound - gone)
  {
    forall d | d in m ensures m[d].round !in gone <==> m[d].round >= cutoff {
      assert d in Listed(byRound, m[d].round);
      assert m[d].round !in gone ==> m[d].round in byRound - gone;
    }
    assert WithoutRounds(m, gone) == DeleteBeforeSpec(m, cutoff);
  }
}
