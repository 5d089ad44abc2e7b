// Missed wake-ups (primary/batch_fetcher.go, network/sync.go): headers that wait for batches that
// are all stored.
module Wakeups {
  import opened Types
  import opened Lists
  import opened Fetcher

  // Pending although every batch it waits for is stored.
  ghost predicate Stranded(s: FetcherState, hd: Hash) {
    hd in s.headers && s.headers[hd].missing <= s.stored
  }

  // ---- What a header waits for, read off the run ----------------------------------------------------

  // Event i is the last that tracked the header.
  ghost predicate LastTracked(cfg: Config, es: seq<Event>, i: nat, hd: Hash) {
    && i < |es| && TracksAt(cfg, es, i, hd)
    && forall j :: i < j < |es| ==> !TracksAt(cfg, es, j, hd)
  }

  ghost predicate TracksAt(cfg: Config, es: seq<Event>, i: nat, hd: Hash)
    requires i < |es|
  {
    es[i].Track? && es[i].h.digest == hd && Tracks(cfg, Run(cfg, es[..i]), es[i].h)
  }

  ghost predicate DeliveredAfter(es: seq<Event>, i: nat, d: Hash) {
    exists j :: i < j < |es| && es[j] == Deliver(d)
  }

  // d was saved after event i without telling the fetcher, and not deleted since.
  ghost predicate SavedSilently(es: seq<Event>, i: nat, d: Hash) {
    exists j :: i < j < |es| && es[j] == StoreOnly(d) && forall k :: j < k < |es| ==> !Deletes(es[k], d)
  }

  lemma PrefixAt(cfg: Config, es: seq<Event>, e: Event, j: nat, hd: Hash)
    requires j < |es|
    ensures (es + [e])[..j] == es[..j] && (TracksAt(cfg, es + [e], j, hd) <==> TracksAt(cfg, es, j, hd))
  {
    assert (es + [e])[..j] == es[..j];
  }

  lemma LastTrackedSnoc(cfg: Config, es: seq<Event>, e: Event, i: nat, hd: Hash)
    requires LastTracked(cfg, es, i, hd) && !(e.Track? && e.h.digest == hd && Tracks(cfg, Run(cfg, es), e.h))
    ensures LastTracked(cfg, es + [e], i, hd)
  {
    PrefixAt(cfg, es, e, i, hd);
    assert (es + [e])[..|es|] == es;
    forall j | i < j < |es + [e]| ensures !TracksAt(cfg, es + [e], j, hd) {
      if j < |es| {
        PrefixAt(cfg, es, e, j, hd);
      }
    }
  }

  lemma DeliveredSnoc(es: seq<Event>, e: Event, i: nat, d: Hash)
    requires i < |es|
    ensures DeliveredAfter(es + [e], i, d) <==> DeliveredAfter(es, i, d) || e == Deliver(d)
  {
    var all := es + [e];
    if DeliveredAfter(es, i, d) {
      var j :| i < j < |es| && es[j] == Deliver(d);
      assert all[j] == Deliver(d);
    }
    assert all[|es|] == e;
  }

  // The entry waits for exactly what was neither stored when event i tracked it nor delivered since.
  ghost predicate WaitsSince(cfg: Config, es: seq<Event>, w: Entry, hd: Hash, i: nat) {
    && LastTracked(cfg, es, i, hd) && es[i].h == w.header
    && forall d :: d in w.missing <==>
      d in w.header.BatchDigests() && d !in Run(cfg, es[..i]).stored && !DeliveredAfter(es, i, d)
  }

  lemma StepOnMissing(cfg: Config, s: FetcherState, e: Event, hd: Hash)
    requires Inv(cfg, s) && hd in Step(cfg, s, e).headers
    ensures var w, come := Step(cfg, s, e).headers[hd], if e.Deliver? then {e.b} else {};
      if e.Track? && e.h.digest == hd && Tracks(cfg, s, e.h) then w == Entry(e.h, e.h.BatchDigests() - s.stored)
      else hd in s.headers && w == Entry(s.headers[hd].header, s.headers[hd].missing - come)
  {
    match e
    case Track(h) => TrackOnMissing(cfg, s, h, hd);
    case Deliver(b) => DeliverOnMissing(cfg, s, b, hd);
    case StoreOnly(b) => StaysOnMissing(s, Step(cfg, s, e), hd);
    case Delete(gone) => StaysOnMissing(s, Step(cfg, s, e), hd);
    case ExpireRequests(expired, validators) => StaysOnMissing(s, Step(cfg, s, e), hd);
    case ExpireHeaders(expired) => StaysOnMissing(s, Step(cfg, s, e), hd);
  }

  lemma StaysOnMissing(s: FetcherState, s': FetcherState, hd: Hash)
    requires hd in s.headers && hd in s'.headers && s'.headers[hd] == s.headers[hd]
    ensures s'.headers[hd] == Entry(s.headers[hd].header, s.headers[hd].missing - {})
  {
    assert s.headers[hd].missing - {} == s.headers[hd].missing;
  }

  lemma TrackOnMissing(cfg: Config, s: FetcherState, h: Header, hd: Hash)
    requires hd in RequestSpec(cfg, s, h).headers
    ensures var w := RequestSpec(cfg, s, h).headers[hd];
      if h.digest == hd && Tracks(cfg, s, h) then w == Entry(h, h.BatchDigests() - s.stored)
      else hd in s.headers && w == s.headers[hd]
  {
    MissingElems(h.batchRefs, s.stored);
  }

  lemma DeliverOnMissing(cfg: Config, s: FetcherState, b: Hash, hd: Hash)
    requires Inv(cfg, s) && hd in DeliverSpec(s, b).0.headers
    ensures hd in s.headers
      && DeliverSpec(s, b).0.headers[hd] == Entry(s.headers[hd].header, s.headers[hd].missing - {b})
  {
    assert forall x :: x in s.headers ==> EntryOk(s, x);
    WokenMeaning(s.headers, WaitersOf(s, b), b);
    assert b !in s.headers[hd].missing ==> s.headers[hd].missing - {b} == s.headers[hd].missing;
  }

  lemma StepWaits(cfg: Config, es: seq<Event>, e: Event, hd: Hash, i: nat)
    requires hd in Run(cfg, es).headers && WaitsSince(cfg, es, Run(cfg, es).headers[hd], hd, i)
    requires !(e.Track? && e.h.digest == hd && Tracks(cfg, Run(cfg, es), e.h))
    requires hd in Step(cfg, Run(cfg, es), e).headers
    ensures WaitsSince(cfg, es + [e], Step(cfg, Run(cfg, es), e).headers[hd], hd, i)
  {
    var s := Run(cfg, es);
    RunKeepsInv(cfg, es);
    StepOnMissing(cfg, s, e, hd);
    LastTrackedSnoc(cfg, es, e, i, hd);
    PrefixAt(cfg, es, e, i, hd);
    forall d ensures DeliveredAfter(es + [e], i, d) <==> DeliveredAfter(es, i, d) || e == Deliver(d) {
      DeliveredSnoc(es, e, i, d);
    }
  }

  lemma TrackWaits(cfg: Config, es: seq<Event>, e: Event)
    requires e.Track? && Tracks(cfg, Run(cfg, es), e.h)
    requires e.h.digest in Step(cfg, Run(cfg, es), e).headers
    ensures WaitsSince(cfg, es + [e], Step(cfg, Run(cfg, es), e).headers[e.h.digest], e.h.digest, |es|)
  {
    assert (es + [e])[..|es|] == es;
    RunKeepsInv(cfg, es);
    StepOnMissing(cfg, Run(cfg, es), e, e.h.digest);
  }

  // In every run a pending header waits for exactly the batches it cites that were neither stored
  // when it was last tracked nor delivered since.
  lemma {:induction false} PendingWaits(cfg: Config, es: seq<Event>, hd: Hash) returns (i: nat)
    requires hd in Run(cfg, es).headers
    ensures WaitsSince(cfg, es, Run(cfg, es).headers[hd], hd, i)
    decreases |es|
  {
    assert es != [];
    var before, e := es[..|es| - 1], es[|es| - 1];
    assert es == before + [e];
    if e.Track? && e.h.digest == hd && Tracks(cfg, Run(cfg, before), e.h) {
      i := |before|;
      TrackWaits(cfg, before, e);
    } else {
      RunKeepsInv(cfg, before);
      StepOnMissing(cfg, Run(cfg, before), e, hd);
      i := PendingWaits(cfg, before, hd);
      StepWaits(cfg, before, e, hd, i);
    }
  }

  // ---- When a header is stranded ---------------------------------------------------------------------

  lemma SilentSnoc(es: seq<Event>, e: Event, i: nat, d: Hash)
    requires i < |es|
    ensures SavedSilently(es + [e], i, d) <==> e == StoreOnly(d) || (SavedSilently(es, i, d) && !Deletes(e, d))
  {
    var all := es + [e];
    if e == StoreOnly(d) {
      assert all[|es|] == StoreOnly(d);
    }
    if SavedSilently(es, i, d) && !Deletes(e, d) {
      var j :| i < j < |es| && es[j] == StoreOnly(d) && forall k :: j < k < |es| ==> !Deletes(es[k], d);
      assert all[j] == StoreOnly(d);
    }
    if SavedSilently(all, i, d) && e != StoreOnly(d) {
      var j :| i < j < |all| && all[j] == StoreOnly(d) && forall k :: j < k < |all| ==> !Deletes(all[k], d);
      assert es[j] == StoreOnly(d) && !Deletes(all[|es|], d);
      forall k | j < k < |es| ensures !Deletes(es[k], d) {
        assert all[k] == es[k];
      }
    }
  }

  // A batch that was not stored at event i and has not been delivered since is stored exactly when
  // it was saved silently.
  lemma {:induction false} StoredSilently(cfg: Config, es: seq<Event>, i: nat, d: Hash)
    requires i < |es| && es[i].Track? && d !in Run(cfg, es[..i]).stored && !DeliveredAfter(es, i, d)
    ensures d in Run(cfg, es).stored <==> SavedSilently(es, i, d)
    decreases |es|
  {
    var before, e := es[..|es| - 1], es[|es| - 1];
    assert es == before + [e];
    StepOnStore(cfg, Run(cfg, before), e, d);
    if i < |before| {
      assert before[..i] == es[..i];
      DeliveredSnoc(before, e, i, d);
      SilentSnoc(before, e, i, d);
      StoredSilently(cfg, before, i, d);
    } else {
      assert before == es[..i];
    }
  }

  ghost predicate Kept(cfg: Config, es: seq<Event>, i: nat, d: Hash)
    requires i < |es|
  {
    d in Run(cfg, es[..i]).stored || DeliveredAfter(es, i, d) || SavedSilently(es, i, d)
  }

  // In every run a pending header is stranded exactly when each batch it cites was stored when the
  // header was last tracked, was delivered since, or was saved since without telling the fetcher and
  // not deleted again.
  lemma StrandedIff(cfg: Config, es: seq<Event>, hd: Hash) returns (i: nat)
    requires hd in Run(cfg, es).headers
    ensures LastTracked(cfg, es, i, hd) && es[i].h == Run(cfg, es).headers[hd].header
    ensures Stranded(Run(cfg, es), hd) <==> forall d :: d in es[i].h.BatchDigests() ==> Kept(cfg, es, i, d)
  {
    i := PendingWaits(cfg, es, hd);
    var s := Run(cfg, es);
    forall d | d in s.headers[hd].missing ensures d in s.stored <==> SavedSilently(es, i, d) {
      StoredSilently(cfg, es, i, d);
    }
    if forall d :: d in es[i].h.BatchDigests() ==> Kept(cfg, es, i, d) {
      forall d | d in s.headers[hd].missing ensures d in s.stored {
        assert Kept(cfg, es, i, d);
      }
      assert Stranded(s, hd);
    }
    if Stranded(s, hd) {
      forall d | d in es[i].h.BatchDigests() ensures Kept(cfg, es, i, d) {
        assert d in s.headers[hd].missing ==> d in s.stored;
      }
    }
  }

  // No header waits for a stored batch.
  ghost predicate Fresh(s: FetcherState) {
    forall hd :: hd in s.headers ==> s.headers[hd].missing !! s.stored
  }

  // If every stored batch is announced, no header is ever stranded.
  lemma NoMissedWakeups(cfg: Config, es: seq<Event>, hd: Hash)
    requires forall e :: e in es ==> !e.StoreOnly?
    ensures Fresh(Run(cfg, es)) && !Stranded(Run(cfg, es), hd)
  {
    var s := Run(cfg, es);
    forall x, d | x in s.headers && d in s.headers[x].missing ensures d !in s.stored {
      var i := PendingWaits(cfg, es, x);
      StoredSilently(cfg, es, i, d);
    }
    if hd in s.headers {
      RunKeepsInv(cfg, es);
      assert EntryOk(s, hd);
      var d := Member(s.headers[hd].missing);
    }
  }

  // A header that cites 1 and 2 is tracked, 1 is saved silently, and 2 is delivered: it is stranded
  // by the delivery, not by the silent save.
  lemma StrandedByDelivery(cfg: Config, h: Header)
    requires cfg.maxPendingHeaders > 0 && h.batchRefs == [BatchRef(1, 0, 0), BatchRef(2, 0, 0)]
    ensures var es := [Track(h)] + [StoreOnly(1)];
      !Stranded(Run(cfg, es), h.digest) && Stranded(Run(cfg, es + [Deliver(2)]), h.digest)
  {
    CitesOneAndTwo(h);
    var es := [Track(h)] + [StoreOnly(1)];
    OneIsStored(cfg, h);
    var s := Run(cfg, es);
    assert 2 in s.headers[h.digest].missing;
    RunSnoc(cfg, es, Deliver(2));
    RunKeepsInv(cfg, es);
    StillPending(cfg, s, 2, h.digest, 1);
    DeliverOnMissing(cfg, s, 2, h.digest);
  }

  lemma OneIsStored(cfg: Config, h: Header)
    requires cfg.maxPendingHeaders > 0 && h.BatchDigests() == {1, 2}
    ensures var s := Run(cfg, [Track(h)] + [StoreOnly(1)]);
      h.digest in s.headers && s.headers[h.digest] == Entry(h, {1, 2}) && s.stored == {1}
  {
    RunSnoc(cfg, [], Track(h));
    assert [] + [Track(h)] == [Track(h)];
    TrackedEntry(cfg, Init(), h);
    RunSnoc(cfg, [Track(h)], StoreOnly(1));
  }

  lemma StillPending(cfg: Config, s: FetcherState, b: Hash, hd: Hash, d: Hash)
    requires Inv(cfg, s) && hd in s.headers && d in s.headers[hd].missing && d != b
    ensures hd in DeliverSpec(s, b).0.headers
  {
    assert forall x :: x in s.headers ==> EntryOk(s, x);
    WokenMeaning(s.headers, WaitersOf(s, b), b);
  }
}
