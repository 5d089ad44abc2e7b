// The batch fetcher (primary/batch_fetcher.go): headers wait for missing batches in three
// linked maps.
module Fetcher {
  import opened Types
  import opened Lists

  datatype Config = Config(maxRetries: nat, maxPendingHeaders: nat)

  // A header waiting for batches.
  datatype Entry = Entry(header: Header, missing: set<Hash>)

  datatype Request = Request(retries: nat, validator: nat)

  datatype FetcherState = FetcherState(
    headers: map<Hash, Entry>,
    requests: map<Hash, Request>,
    waiting: map<Hash, seq<Hash>>,
    stored: set<Hash>)

  ghost function Init(): FetcherState { FetcherState(map[], map[], map[], {}) }

  // ---- Specification --------------------------------------------------------------------------

  ghost function Missing(refs: seq<BatchRef>, stored: set<Hash>): seq<Hash> {
    if refs == [] then []
    else
      var before := Missing(refs[..|refs| - 1], stored);
      if refs[|refs| - 1].digest in stored then before else before + [refs[|refs| - 1].digest]
  }

  // List the header under each missing digest.
  ghost function Listed(waiting: map<Hash, seq<Hash>>, missing: seq<Hash>, hd: Hash): map<Hash, seq<Hash>> {
    if missing == [] then waiting
    else
      var w, d := Listed(waiting, missing[..|missing| - 1], hd), missing[|missing| - 1];
      w[d := (if d in w then w[d] else []) + [hd]]
  }

  // Ask for each missing digest that has no outstanding request.
  ghost function Requested(requests: map<Hash, Request>, missing: set<Hash>, author: nat): map<Hash, Request> {
    (map d | d in missing :: Request(0, author)) + requests
  }

  lemma RequestedNone(requests: map<Hash, Request>, author: nat)
    ensures Requested(requests, {}, author) == requests
  {}

  lemma ElemsUpTo(s: seq<Hash>, i: nat)
    requires i < |s|
    ensures Elems(s[..i + 1]) == Elems(s[..i]) + {s[i]}
  {
    assert s[..i + 1] == s[..i] + [s[i]];
    ElemsAppend(s[..i], [s[i]]);
  }

  lemma RequestedMore(requests: map<Hash, Request>, missing: set<Hash>, d: Hash, author: nat)
    ensures var now := Requested(requests, missing, author);
      Requested(requests, missing + {d}, author) == if d in now then now else now[d := Request(0, author)]
  {
    var now := Requested(requests, missing, author);
    assert Requested(requests, missing + {d}, author).Keys == now.Keys + {d};
  }

  ghost predicate Tracks(cfg: Config, s: FetcherState, h: Header) {
    Missing(h.batchRefs, s.stored) != [] && |s.headers| < cfg.maxPendingHeaders
  }

  ghost function RequestSpec(cfg: Config, s: FetcherState, h: Header): FetcherState {
    if !Tracks(cfg, s, h) then s
    else
      var missing := Missing(h.batchRefs, s.stored);
      FetcherState(
        s.headers[h.digest := Entry(h, Elems(missing))],
        Requested(s.requests, Elems(missing), h.author),
        Listed(s.waiting, missing, h.digest),
        s.stored)
  }

  ghost function WaitersOf(s: FetcherState, b: Hash): seq<Hash> {
    if b in s.waiting then s.waiting[b] else []
  }

  // The pending headers after b arrives for those in the list.
  ghost function Woken(headers: map<Hash, Entry>, list: seq<Hash>, b: Hash): (map<Hash, Entry>, seq<Header>) {
    if list == [] then (headers, [])
    else
      var (hs, ready) := Woken(headers, list[..|list| - 1], b);
      var hd := list[|list| - 1];
      if hd !in hs then (hs, ready)
      else if hs[hd].missing - {b} == {} then (hs - {hd}, ready + [hs[hd].header])
      else (hs[hd := Entry(hs[hd].header, hs[hd].missing - {b})], ready)
  }

  ghost function NotifySpec(s: FetcherState, b: Hash): (FetcherState, seq<Header>) {
    var (hs, ready) := Woken(s.headers, WaitersOf(s, b), b);
    (FetcherState(hs, s.requests - {b}, s.waiting - {b}, s.stored), ready)
  }

  // A batch that arrives from a peer is stored, then announced to the fetcher.
  ghost function DeliverSpec(s: FetcherState, b: Hash): (FetcherState, seq<Header>) {
    NotifySpec(s.(stored := s.stored + {b}), b)
  }

  ghost function Failed(cfg: Config, s: FetcherState, expired: set<Hash>): set<Hash> {
    set d | d in s.requests && d in expired && s.requests[d].retries >= cfg.maxRetries
  }

  ghost function HeadersOf(waiting: map<Hash, seq<Hash>>, failed: set<Hash>): set<Hash> {
    set d, hd | d in failed && d in waiting && hd in waiting[d] :: hd
  }

  // The validator a retry goes to: the first listed one that was not just asked.
  function NextValidator(validators: seq<nat>, asked: nat): nat {
    if validators == [] then asked
    else if validators[0] != asked then validators[0]
    else NextValidator(validators[1..], asked)
  }

  // The requests outside todo that have not failed, retried if expired.
  ghost function RetriedRequests(cfg: Config, s: FetcherState, expired: set<Hash>, validators: seq<nat>,
                                 todo: set<Hash>): map<Hash, Request> {
    map d | d in s.requests && d !in Failed(cfg, s, expired) && d !in todo ::
      if d in expired then Request(s.requests[d].retries + 1, NextValidator(validators, s.requests[d].validator))
        else s.requests[d]
  }

  ghost function ExpireRequestsSpec(cfg: Config, s: FetcherState, expired: set<Hash>,
                                    validators: seq<nat>): FetcherState {
    var failed := Failed(cfg, s, expired);
    FetcherState(
      s.headers - HeadersOf(s.waiting, failed),
      RetriedRequests(cfg, s, expired, validators, {}),
      s.waiting - failed,
      s.stored)
  }

  // ---- Invariant ----------------------------------------------------------------------------------

  ghost predicate EntryOk(s: FetcherState, hd: Hash)
    requires hd in s.headers
  {
    var e := s.headers[hd];
    && e.header.digest == hd && e.missing != {}
    && e.missing <= e.header.BatchDigests()
    && forall d :: d in e.missing ==> d in s.requests && d in s.waiting && hd in s.waiting[d]
  }

  ghost predicate Inv(cfg: Config, s: FetcherState) {
    && (forall hd :: hd in s.headers ==> EntryOk(s, hd))
    && s.waiting.Keys == s.requests.Keys
    && |s.headers| <= cfg.maxPendingHeaders
    && forall d :: d in s.requests ==> s.requests[d].retries <= cfg.maxRetries
  }

  lemma {:induction false} MissingElems(refs: seq<BatchRef>, stored: set<Hash>)
    ensures Elems(Missing(refs, stored)) == (set ref | ref in refs :: ref.digest) - stored
    decreases |refs|
  {
    if refs != [] {
      MissingElems(refs[..|refs| - 1], stored);
      assert refs == refs[..|refs| - 1] + [refs[|refs| - 1]];
      ElemsAppend(Missing(refs[..|refs| - 1], stored), [refs[|refs| - 1].digest]);
    }
  }

  lemma {:induction false} ListedKeeps(waiting: map<Hash, seq<Hash>>, missing: seq<Hash>, hd: Hash)
    ensures var w := Listed(waiting, missing, hd);
      && w.Keys == waiting.Keys + Elems(missing)
      && (forall d :: d in missing ==> hd in w[d])
      && (forall d, x :: d in waiting && x in waiting[d] ==> x in w[d])
      && (forall d, x :: d in w && x in w[d] ==> x == hd || (d in waiting && x in waiting[d]))
    decreases |missing|
  {
    if missing != [] {
      ListedKeeps(waiting, missing[..|missing| - 1], hd);
      assert missing == missing[..|missing| - 1] + [missing[|missing| - 1]];
      ElemsAppend(missing[..|missing| - 1], [missing[|missing| - 1]]);
    }
  }

  lemma RequestKeepsOthers(cfg: Config, s: FetcherState, h: Header, hd: Hash)
    requires Tracks(cfg, s, h) && hd in s.headers && EntryOk(s, hd) && hd != h.digest
    ensures EntryOk(RequestSpec(cfg, s, h), hd)
  {
    ListedKeeps(s.waiting, Missing(h.batchRefs, s.stored), h.digest);
  }

  lemma RequestTracks(cfg: Config, s: FetcherState, h: Header)
    requires Tracks(cfg, s, h)
    ensures EntryOk(RequestSpec(cfg, s, h), h.digest)
  {
    var missing := Missing(h.batchRefs, s.stored);
    MissingElems(h.batchRefs, s.stored);
    ListedKeeps(s.waiting, missing, h.digest);
    assert missing[0] in Elems(missing);
  }

  lemma RequestKeepsMaps(cfg: Config, s: FetcherState, h: Header)
    requires Tracks(cfg, s, h) && s.waiting.Keys == s.requests.Keys
    requires forall d :: d in s.requests ==> s.requests[d].retries <= cfg.maxRetries
    ensures var s' := RequestSpec(cfg, s, h);
      && s'.waiting.Keys == s'.requests.Keys && |s'.headers| <= cfg.maxPendingHeaders
      && forall d :: d in s'.requests ==> s'.requests[d].retries <= cfg.maxRetries
  {
    var missing := Missing(h.batchRefs, s.stored);
    ListedKeeps(s.waiting, missing, h.digest);
    MapCardInsert(s.headers, h.digest, Entry(h, Elems(missing)));
  }

  lemma RequestKeepsInv(cfg: Config, s: FetcherState, h: Header)
    requires Inv(cfg, s)
    ensures Inv(cfg, RequestSpec(cfg, s, h))
  {
    if Tracks(cfg, s, h) {
      var s' := RequestSpec(cfg, s, h);
      RequestKeepsMaps(cfg, s, h);
      RequestTracks(cfg, s, h);
      forall hd | hd in s'.headers ensures EntryOk(s', hd) {
        if hd != h.digest {
          assert hd in s.headers;
          RequestKeepsOthers(cfg, s, h, hd);
        }
      }
    }
  }

  // What waking a list of headers does: each listed pending header loses b; those left with
  // nothing missing are ready, exactly once, and leave.
  lemma {:induction false} WokenMeaning(headers: map<Hash, Entry>, list: seq<Hash>, b: Hash)
    requires forall hd :: hd in headers ==> headers[hd].missing != {} && headers[hd].header.digest == hd
    ensures var (hs, ready) := Woken(headers, list, b);
      && (forall hd :: hd in hs <==> hd in headers && !(hd in list && headers[hd].missing == {b}))
      && (forall hd :: hd in hs ==>
        hs[hd] == Entry(headers[hd].header, if hd in list then headers[hd].missing - {b} else headers[hd].missing))
      && NoDup(ready)
      && (forall h :: h in ready <==>
        h.digest in headers && headers[h.digest].header == h && h.digest in list && headers[h.digest].missing == {b})
    decreases |list|
  {
    if list != [] {
      var before, hd := list[..|list| - 1], list[|list| - 1];
      WokenMeaning(headers, before, b);
      assert list == before + [hd];
      assert forall x :: x in list <==> x in before || x == hd;
    }
  }

  lemma NotifyKeepsInv(cfg: Config, s: FetcherState, b: Hash)
    requires Inv(cfg, s) && b in s.stored
    ensures Inv(cfg, NotifySpec(s, b).0)
  {
    var list, s' := WaitersOf(s, b), NotifySpec(s, b).0;
    assert forall hd :: hd in s.headers ==> EntryOk(s, hd);
    WokenMeaning(s.headers, list, b);
    forall hd | hd in s'.headers ensures EntryOk(s', hd) {
      NotifyKeepsEntry(s, b, hd);
    }
    FewerHeaders(s.headers, s'.headers);
  }

  lemma NotifyKeepsEntry(s: FetcherState, b: Hash, hd: Hash)
    requires (forall x :: x in s.headers ==> EntryOk(s, x)) && b in s.stored && hd in NotifySpec(s, b).0.headers
    ensures EntryOk(NotifySpec(s, b).0, hd)
  {
    WokenMeaning(s.headers, WaitersOf(s, b), b);
    assert EntryOk(s, hd);
    assert b in s.headers[hd].missing ==> hd in WaitersOf(s, b);
  }

  lemma FewerHeaders(headers: map<Hash, Entry>, headers': map<Hash, Entry>)
    requires forall hd :: hd in headers' ==> hd in headers
    ensures |headers'| <= |headers|
  {
    assert forall hd :: hd in headers'.Keys ==> hd in headers.Keys;
    assert headers'.Keys <= headers.Keys;
    MapCardMono(headers', headers);
  }

  lemma DropKeepsEntries(s: FetcherState, s': FetcherState)
    requires forall hd :: hd in s.headers ==> EntryOk(s, hd)
    requires forall hd :: hd in s'.headers ==> hd in s.headers && s'.headers[hd] == s.headers[hd]
    requires forall hd, d :: hd in s'.headers && d in s'.headers[hd].missing ==>
      d in s'.requests && d in s'.waiting && d in s.waiting && s'.waiting[d] == s.waiting[d]
    ensures forall hd :: hd in s'.headers ==> EntryOk(s', hd)
    ensures |s'.headers| <= |s.headers|
  {
    forall hd | hd in s'.headers ensures EntryOk(s', hd) { assert EntryOk(s, hd); }
    FewerHeaders(s.headers, s'.headers);
  }

  lemma RetriesBounded(cfg: Config, s: FetcherState, expired: set<Hash>, validators: seq<nat>)
    requires forall d :: d in s.requests ==> s.requests[d].retries <= cfg.maxRetries
    ensures var requests := RetriedRequests(cfg, s, expired, validators, {});
      && requests.Keys == s.requests.Keys - Failed(cfg, s, expired)
      && forall d :: d in requests ==> requests[d].retries <= cfg.maxRetries
  {}

  // A header whose batch failed goes with it, so the others keep their requests.
  lemma ExpiryKeepsRequests(s: FetcherState, failed: set<Hash>, hd: Hash, d: Hash)
    requires hd in s.headers && EntryOk(s, hd) && hd !in HeadersOf(s.waiting, failed) && d in s.headers[hd].missing
    ensures d in s.requests && d in s.waiting && d !in failed
  {
    assert d in failed ==> hd in HeadersOf(s.waiting, failed);
  }

  lemma ExpireRequestsKeepsInv(cfg: Config, s: FetcherState, expired: set<Hash>, validators: seq<nat>)
    requires Inv(cfg, s)
    ensures Inv(cfg, ExpireRequestsSpec(cfg, s, expired, validators))
  {
    var s', failed := ExpireRequestsSpec(cfg, s, expired, validators), Failed(cfg, s, expired);
    RetriesBounded(cfg, s, expired, validators);
    forall hd, d | hd in s'.headers && d in s'.headers[hd].missing
      ensures d in s'.requests && d in s'.waiting && d in s.waiting && s'.waiting[d] == s.waiting[d]
    {
      ExpiryKeepsRequests(s, failed, hd, d);
    }
    DropKeepsEntries(s, s');
  }

  // ---- Runs -------------------------------------------------------------------------------------

  // StoreOnly is a batch saved by another path (sync, or this node's own worker) that does not
  // notify the fetcher; Delete is garbage collection on the store they share.
  datatype Event =
    | Track(h: Header)
    | Deliver(b: Hash)
    | StoreOnly(b: Hash)
    | Delete(gone: set<Hash>)
    | ExpireRequests(expired: set<Hash>, validators: seq<nat>)
    | ExpireHeaders(expired: set<Hash>)

  ghost function Step(cfg: Config, s: FetcherState, e: Event): FetcherState {
    match e
    case Track(h) => RequestSpec(cfg, s, h)
    case Deliver(b) => DeliverSpec(s, b).0
    case StoreOnly(b) => s.(stored := s.stored + {b})
    case Delete(gone) => s.(stored := s.stored - gone)
    case ExpireRequests(expired, validators) => ExpireRequestsSpec(cfg, s, expired, validators)
    case ExpireHeaders(expired) => s.(headers := s.headers - expired)
  }

  // The headers handed back for voting.
  ghost function Ready(s: FetcherState, e: Event): seq<Header> {
    if e.Deliver? then DeliverSpec(s, e.b).1 else []
  }

  ghost function Run(cfg: Config, es: seq<Event>): FetcherState {
    if es == [] then Init() else Step(cfg, Run(cfg, es[..|es| - 1]), es[|es| - 1])
  }

  lemma StoreKeepsInv(cfg: Config, s: FetcherState, stored: set<Hash>)
    requires Inv(cfg, s)
    ensures Inv(cfg, s.(stored := stored))
  {
    DropKeepsEntries(s, s.(stored := stored)) by {
      assert forall hd :: hd in s.headers ==> EntryOk(s, hd);
    }
  }

  lemma StepKeepsInv(cfg: Config, s: FetcherState, e: Event)
    requires Inv(cfg, s)
    ensures Inv(cfg, Step(cfg, s, e))
  {
    match e
    case Track(h) => RequestKeepsInv(cfg, s, h);
    case Deliver(b) =>
      StoreKeepsInv(cfg, s, s.stored + {b});
      NotifyKeepsInv(cfg, s.(stored := s.stored + {b}), b);
    case StoreOnly(b) => StoreKeepsInv(cfg, s, s.stored + {b});
    case Delete(gone) => StoreKeepsInv(cfg, s, s.stored - gone);
    case ExpireRequests(expired, validators) => ExpireRequestsKeepsInv(cfg, s, expired, validators);
    case ExpireHeaders(expired) =>
      DropKeepsEntries(s, s.(headers := s.headers - expired)) by {
        assert forall hd :: hd in s.headers ==> EntryOk(s, hd);
      }
  }

  // In every reachable state: each pending header misses something it cites, each missing digest
  // has an outstanding request and lists the header, and the numbers of pending headers and of
  // retries are bounded.  What became of the references that are not missing is in RunAccounts.
  lemma {:induction false} RunKeepsInv(cfg: Config, es: seq<Event>)
    ensures Inv(cfg, Run(cfg, es))
    decreases |es|
  {
    if es != [] {
      RunKeepsInv(cfg, es[..|es| - 1]);
      StepKeepsInv(cfg, Run(cfg, es[..|es| - 1]), es[|es| - 1]);
    }
  }

  // A header becomes ready exactly when its last missing batch is delivered, once, and is then no
  // longer pending.
  lemma ReadyIff(cfg: Config, s: FetcherState, e: Event, h: Header)
    requires Inv(cfg, s)
    ensures h in Ready(s, e) <==>
      h.digest in s.headers && s.headers[h.digest].header == h && e.Deliver? && s.headers[h.digest].missing == {e.b}
    ensures h in Ready(s, e) ==> h.digest !in Step(cfg, s, e).headers
    ensures NoDup(Ready(s, e))
  {
    if e.Deliver? {
      assert forall hd :: hd in s.headers ==> EntryOk(s, hd);
      WokenMeaning(s.headers, WaitersOf(s, e.b), e.b);
      if h.digest in s.headers { assert EntryOk(s, h.digest); }
    }
  }

  // ---- What a ready header can count on ---------------------------------------------------------------

  ghost predicate Saves(e: Event, d: Hash) { (e.Deliver? || e.StoreOnly?) && e.b == d }

  ghost predicate Deletes(e: Event, d: Hash) { e.Delete? && d in e.gone }

  // d was deleted after event i and has not been saved since.
  ghost predicate LostAfter(es: seq<Event>, i: nat, d: Hash) {
    exists j :: i < j < |es| && Deletes(es[j], d) && forall k :: j < k < |es| ==> !Saves(es[k], d)
  }

  lemma LostSnoc(es: seq<Event>, e: Event, i: nat, d: Hash)
    requires i < |es|
    ensures LostAfter(es + [e], i, d) <==> Deletes(e, d) || (LostAfter(es, i, d) && !Saves(e, d))
  {
    var all := es + [e];
    if Deletes(e, d) {
      assert Deletes(all[|es|], d);
    }
    if LostAfter(es, i, d) && !Saves(e, d) {
      var j :| i < j < |es| && Deletes(es[j], d) && forall k :: j < k < |es| ==> !Saves(es[k], d);
      assert Deletes(all[j], d);
    }
    if LostAfter(all, i, d) && !Deletes(e, d) {
      var j :| i < j < |all| && Deletes(all[j], d) && forall k :: j < k < |all| ==> !Saves(all[k], d);
      assert Deletes(es[j], d);
      forall k | j < k < |es| ensures !Saves(es[k], d) {
        assert all[k] == es[k];
      }
      assert !Saves(all[|es|], d);
    }
  }

  // Event i tracked the header, and each batch it cites is missing, stored or lost since.
  ghost predicate AccountedSince(es: seq<Event>, s: FetcherState, hd: Hash, i: nat)
    requires hd in s.headers
  {
    var e := s.headers[hd];
    && i < |es| && es[i] == Track(e.header)
    && forall d :: d in e.header.BatchDigests() ==> d in e.missing || d in s.stored || LostAfter(es, i, d)
  }

  ghost predicate AllAccounted(es: seq<Event>, s: FetcherState) {
    forall hd :: hd in s.headers ==> exists i: nat :: AccountedSince(es, s, hd, i)
  }

  // One event keeps the account of a header that stays pending with at most the delivered batch
  // less to wait for.
  lemma AccountKept(es: seq<Event>, e: Event, s: FetcherState, s': FetcherState, hd: Hash, i: nat)
    requires hd in s.headers && AccountedSince(es, s, hd, i) && hd in s'.headers
      && s'.headers[hd].header == s.headers[hd].header
    requires forall d :: d in s.headers[hd].missing && d !in s'.headers[hd].missing ==> d in s'.stored
    requires forall d :: d in s'.stored <==> (d in s.stored && !Deletes(e, d)) || Saves(e, d)
    ensures AccountedSince(es + [e], s', hd, i)
  {
    assert (es + [e])[i] == es[i];
    forall d | d in s.headers[hd].header.BatchDigests()
      ensures d in s'.headers[hd].missing || d in s'.stored || LostAfter(es + [e], i, d)
    {
      LostSnoc(es, e, i, d);
    }
  }

  // An event either tracks the header afresh, or leaves it waiting for the same batches, or takes
  // the batch it stored off its list.
  lemma StepOnEntry(cfg: Config, s: FetcherState, e: Event, hd: Hash)
    requires Inv(cfg, s) && hd in Step(cfg, s, e).headers
    ensures var s' := Step(cfg, s, e);
      || (e.Track? && e.h.digest == hd && s'.headers[hd] == Entry(e.h, e.h.BatchDigests() - s.stored)
        && s'.stored == s.stored)
      || (hd in s.headers && s'.headers[hd].header == s.headers[hd].header
          && forall d :: d in s.headers[hd].missing && d !in s'.headers[hd].missing ==> d in s'.stored)
  {
    if e.Track? {
      if Tracks(cfg, s, e.h) {
        MissingElems(e.h.batchRefs, s.stored);
      }
    } else if e.Deliver? {
      DeliverOnEntry(cfg, s, e.b, hd);
    }
  }

  lemma DeliverOnEntry(cfg: Config, s: FetcherState, b: Hash, hd: Hash)
    requires Inv(cfg, s) && hd in DeliverSpec(s, b).0.headers
    ensures var s' := DeliverSpec(s, b).0;
      && hd in s.headers && s'.headers[hd].header == s.headers[hd].header
      && forall d :: d in s.headers[hd].missing && d !in s'.headers[hd].missing ==> d in s'.stored
  {
    assert forall x :: x in s.headers ==> EntryOk(s, x);
    WokenMeaning(s.headers, WaitersOf(s, b), b);
  }

  lemma StepOnStore(cfg: Config, s: FetcherState, e: Event, d: Hash)
    ensures d in Step(cfg, s, e).stored <==> (d in s.stored && !Deletes(e, d)) || Saves(e, d)
  {}

  lemma StepAccounts(cfg: Config, es: seq<Event>, e: Event, s: FetcherState)
    requires Inv(cfg, s) && AllAccounted(es, s)
    ensures AllAccounted(es + [e], Step(cfg, s, e))
  {
    var s' := Step(cfg, s, e);
    forall hd | hd in s'.headers ensures exists i: nat :: AccountedSince(es + [e], s', hd, i) {
      StepOnEntry(cfg, s, e, hd);
      if e.Track? && e.h.digest == hd && s'.headers[hd] == Entry(e.h, e.h.BatchDigests() - s.stored)
        && s'.stored == s.stored {
        assert (es + [e])[|es|] == e;
        assert AccountedSince(es + [e], s', hd, |es|);
      } else {
        var i: nat :| AccountedSince(es, s, hd, i);
        forall d ensures d in s'.stored <==> (d in s.stored && !Deletes(e, d)) || Saves(e, d) {
          StepOnStore(cfg, s, e, d);
        }
        AccountKept(es, e, s, s', hd, i);
      }
    }
  }

  // In every run each batch a pending header cites is missing, stored, or was deleted since the
  // header was tracked and not saved again.
  lemma {:induction false} RunAccounts(cfg: Config, es: seq<Event>)
    ensures AllAccounted(es, Run(cfg, es))
    decreases |es|
  {
    if es != [] {
      var before, e := es[..|es| - 1], es[|es| - 1];
      RunAccounts(cfg, before);
      RunKeepsInv(cfg, before);
      StepAccounts(cfg, before, e, Run(cfg, before));
      assert es == before + [e];
    }
  }

  // A header that becomes ready has all its batches stored exactly when none of them was deleted
  // after the header was tracked without being saved again.
  lemma ReadyHoldsAllIff(cfg: Config, es: seq<Event>, e: Event, h: Header) returns (i: nat)
    requires h in Ready(Run(cfg, es), e)
    ensures i < |es| && es[i] == Track(h)
    ensures h.BatchDigests() <= Run(cfg, es + [e]).stored <==>
      forall d :: d in h.BatchDigests() ==> !LostAfter(es + [e], i, d)
  {
    var s, s' := Run(cfg, es), Step(cfg, Run(cfg, es), e);
    RunKeepsInv(cfg, es);
    RunAccounts(cfg, es);
    ReadyIff(cfg, s, e, h);
    i :| AccountedSince(es, s, h.digest, i);
    assert (es + [e])[..|es|] == es;
    assert Run(cfg, es + [e]) == s';
    forall d | d in h.BatchDigests() ensures d in s'.stored <==> !LostAfter(es + [e], i, d) {
      StepOnStore(cfg, s, e, d);
      LostSnoc(es, e, i, d);
      LostIsNotStored(cfg, es, i, d);
    }
  }

  lemma {:induction false} LostIsNotStored(cfg: Config, es: seq<Event>, i: nat, d: Hash)
    ensures LostAfter(es, i, d) ==> d !in Run(cfg, es).stored
    decreases |es|
  {
    if es != [] && i < |es| - 1 {
      var before, e := es[..|es| - 1], es[|es| - 1];
      LostIsNotStored(cfg, before, i, d);
      StepOnStore(cfg, Run(cfg, before), e, d);
      assert es == before + [e];
      LostSnoc(before, e, i, d);
    }
  }

  lemma RunSnoc(cfg: Config, es: seq<Event>, e: Event)
    ensures Run(cfg, es + [e]) == Step(cfg, Run(cfg, es), e)
  {
    assert (es + [e])[..|es|] == es;
  }

  // Tracking a header that misses something.
  lemma TrackedEntry(cfg: Config, s: FetcherState, h: Header)
    requires !(h.BatchDigests() <= s.stored) && |s.headers| < cfg.maxPendingHeaders
    ensures h.digest in RequestSpec(cfg, s, h).headers
    ensures RequestSpec(cfg, s, h).headers[h.digest] == Entry(h, h.BatchDigests() - s.stored)
      && RequestSpec(cfg, s, h).stored == s.stored
  {
    MissingElems(h.batchRefs, s.stored);
    NothingMissingIff(h, s.stored);
  }

  lemma CitesOneAndTwo(h: Header)
    requires h.batchRefs == [BatchRef(1, 0, 0), BatchRef(2, 0, 0)]
    ensures h.BatchDigests() == {1, 2}
  {
    assert h.batchRefs[0] in h.batchRefs && h.batchRefs[1] in h.batchRefs;
  }

  lemma OneIsGone(cfg: Config, h: Header)
    requires cfg.maxPendingHeaders > 0 && h.BatchDigests() == {1, 2}
    ensures var s := Run(cfg, [Deliver(1)] + [Track(h)] + [Delete({1})]);
      h.digest in s.headers && s.headers[h.digest] == Entry(h, {2}) && 1 !in s.stored
  {
    var e1, e2 := [Deliver(1)], [Deliver(1)] + [Track(h)];
    RunSnoc(cfg, [], Deliver(1));
    assert [] + [Deliver(1)] == e1;
    var s1 := Run(cfg, e1);
    assert s1.headers == map[] && s1.stored == {1};
    RunSnoc(cfg, e1, Track(h));
    TrackedEntry(cfg, s1, h);
    assert {1, 2} - {1} == {2};
    RunSnoc(cfg, e2, Delete({1}));
  }

  // Batch 1 is stored when the header that cites 1 and 2 is tracked, and deleted before 2 arrives:
  // the header becomes ready although 1 is not stored.
  lemma ReadyWithoutBatch(cfg: Config, h: Header)
    requires cfg.maxPendingHeaders > 0 && h.batchRefs == [BatchRef(1, 0, 0), BatchRef(2, 0, 0)]
    ensures var es := [Deliver(1)] + [Track(h)] + [Delete({1})];
      h in Ready(Run(cfg, es), Deliver(2)) && 1 in h.BatchDigests() && 1 !in Run(cfg, es + [Deliver(2)]).stored
  {
    var es := [Deliver(1)] + [Track(h)] + [Delete({1})];
    CitesOneAndTwo(h);
    OneIsGone(cfg, h);
    RunKeepsInv(cfg, es);
    ReadyIff(cfg, Run(cfg, es), Deliver(2), h);
    RunSnoc(cfg, es, Deliver(2));
    StepOnStore(cfg, Run(cfg, es), Deliver(2), 1);
  }

  // ---- Conservation: every tracked header is woken, dropped or still pending ----------------------

  ghost function Count(b: bool): nat { if b then 1 else 0 }

  ghost predicate Awake(s: FetcherState, e: Event, hd: Hash) {
    exists h :: h in Ready(s, e) && h.digest == hd
  }

  // How often the header was newly tracked, woken, and dropped by a timeout.
  ghost function Tracked(cfg: Config, es: seq<Event>, hd: Hash): nat {
    if es == [] then 0
    else
      var s, e := Run(cfg, es[..|es| - 1]), es[|es| - 1];
      Tracked(cfg, es[..|es| - 1], hd) + Count(hd !in s.headers && hd in Step(cfg, s, e).headers)
  }

  ghost function Wakings(cfg: Config, es: seq<Event>, hd: Hash): nat {
    if es == [] then 0
    else Wakings(cfg, es[..|es| - 1], hd) + Count(Awake(Run(cfg, es[..|es| - 1]), es[|es| - 1], hd))
  }

  ghost function Drops(cfg: Config, es: seq<Event>, hd: Hash): nat {
    if es == [] then 0
    else
      var s, e := Run(cfg, es[..|es| - 1]), es[|es| - 1];
      Drops(cfg, es[..|es| - 1], hd) + Count((e.ExpireRequests? || e.ExpireHeaders?) && hd in s.headers
        && hd !in Step(cfg, s, e).headers)
  }

  lemma StepConserves(cfg: Config, s: FetcherState, e: Event, hd: Hash)
    requires Inv(cfg, s)
    ensures var s' := Step(cfg, s, e);
      Count(hd in s.headers) + Count(hd !in s.headers && hd in s'.headers)
      == Count(hd in s'.headers) + Count(Awake(s, e, hd)) + Count((e.ExpireRequests? || e.ExpireHeaders?)
        && hd in s.headers && hd !in s'.headers)
  {
    if e.Deliver? {
      assert forall x :: x in s.headers ==> EntryOk(s, x);
      WokenMeaning(s.headers, WaitersOf(s, e.b), e.b);
      if hd in s.headers {
        assert EntryOk(s, hd);
        assert s.headers[hd].missing == {e.b} && hd in WaitersOf(s, e.b) ==> s.headers[hd].header in Ready(s, e);
      }
    }
  }

  lemma {:induction false} HeadersAreConserved(cfg: Config, es: seq<Event>, hd: Hash)
    ensures Tracked(cfg, es, hd) == Wakings(cfg, es, hd) + Drops(cfg, es, hd) + Count(hd in Run(cfg, es).headers)
    decreases |es|
  {
    if es != [] {
      HeadersAreConserved(cfg, es[..|es| - 1], hd);
      RunKeepsInv(cfg, es[..|es| - 1]);
      StepConserves(cfg, Run(cfg, es[..|es| - 1]), es[|es| - 1], hd);
    }
  }

  lemma NothingMissingIff(h: Header, stored: set<Hash>)
    ensures Missing(h.batchRefs, stored) == [] <==> h.BatchDigests() <= stored
  {
    var missing := Missing(h.batchRefs, stored);
    MissingElems(h.batchRefs, stored);
    if missing == [] {
      EmptyDifference(h.BatchDigests(), stored);
    } else {
      assert missing[0] in Elems(missing);
    }
  }

  lemma DropExactly(headers: map<Hash, Entry>, gone: seq<Hash>, expired: set<Hash>)
    requires Elems(gone) == headers.Keys * expired
    ensures headers - Elems(gone) == headers - expired
  {}

  lemma HeadersOfGrows(waiting: map<Hash, seq<Hash>>, failed: set<Hash>, d: Hash)
    ensures HeadersOf(waiting, failed + {d}) ==
      HeadersOf(waiting, failed) + (if d in waiting then set hd | hd in waiting[d] else {})
  {
    var more := if d in waiting then set hd | hd in waiting[d] else {};
    forall hd ensures hd in HeadersOf(waiting, failed + {d}) <==> hd in HeadersOf(waiting, failed) + more {
      assert hd in HeadersOf(waiting, failed + {d}) <==>
        exists x :: x in failed + {d} && x in waiting && hd in waiting[x];
      assert hd in HeadersOf(waiting, failed) <==> exists x :: x in failed && x in waiting && hd in waiting[x];
    }
  }

  // ---- The object -----------------------------------------------------------------------------------

  class BatchFetcher {
    const cfg: Config
    var pendingHeaders: map<Hash, Entry>
    var pendingRequests: map<Hash, Request>
    var batchToHeaders: map<Hash, seq<Hash>>
    var stored: set<Hash>

    ghost function State(): FetcherState
      reads this
    {
      FetcherState(pendingHeaders, pendingRequests, batchToHeaders, stored)
    }

    constructor (cfg: Config)
      ensures this.cfg == cfg && State() == Init()
    {
      this.cfg := cfg;
      pendingHeaders, pendingRequests, batchToHeaders, stored := map[], map[], map[], {};
    }

    // True when every cited batch is stored; otherwise the header waits, unless too many do.
    method RequestBatchesForHeader(header: Header) returns (available: bool)
      modifies this
      ensures available <==> header.BatchDigests() <= old(stored)
      ensures State() == RequestSpec(cfg, old(State()), header)
    {
      NothingMissingIff(header, stored);
      if |header.batchRefs| == 0 {
        return true;
      }
      var missing := FindMissing(header.batchRefs);
      if |missing| == 0 {
        return true;
      }
      if |pendingHeaders| >= cfg.maxPendingHeaders {
        return false;
      }
      pendingHeaders := pendingHeaders[header.digest := Entry(header, set d | d in missing)];
      ListHeader(missing, header.digest);
      RequestMissing(missing, header.author);
      return false;
    }

    method FindMissing(refs: seq<BatchRef>) returns (missing: seq<Hash>)
      ensures missing == Missing(refs, stored)
    {
      missing := [];
      for i := 0 to |refs|
        invariant missing == Missing(refs[..i], stored)
      {
        assert refs[..i + 1][..i] == refs[..i];
        if refs[i].digest !in stored {
          missing := missing + [refs[i].digest];
        }
      }
      assert refs[..|refs|] == refs;
    }

    method ListHeader(missing: seq<Hash>, hd: Hash)
      modifies this`batchToHeaders
      ensures batchToHeaders == Listed(old(batchToHeaders), missing, hd)
    {
      for i := 0 to |missing|
        invariant batchToHeaders == Listed(old(batchToHeaders), missing[..i], hd)
      {
        assert missing[..i + 1][..i] == missing[..i];
        var d := missing[i];
        var list := if d in batchToHeaders then batchToHeaders[d] else [];
        batchToHeaders := batchToHeaders[d := list + [hd]];
      }
      assert missing[..|missing|] == missing;
    }

    method RequestMissing(missing: seq<Hash>, author: nat)
      modifies this`pendingRequests
      ensures pendingRequests == Requested(old(pendingRequests), Elems(missing), author)
    {
      ghost var done: set<Hash> := {};
      RequestedNone(pendingRequests, author);
      for i := 0 to |missing|
        invariant done == Elems(missing[..i]) && pendingRequests == Requested(old(pendingRequests), done, author)
      {
        var d := missing[i];
        RequestedMore(old(pendingRequests), done, d, author);
        if d !in pendingRequests {
          pendingRequests := pendingRequests[d := Request(0, author)];
        }
        done := done + {d};
        ElemsUpTo(missing, i);
      }
      assert missing[..|missing|] == missing;
    }

    // Wakes the headers for which this was the last missing batch.
    method NotifyBatchReceived(digest: Hash) returns (ready: seq<Header>)
      modifies this
      ensures (State(), ready) == NotifySpec(old(State()), digest)
    {
      pendingRequests := pendingRequests - {digest};
      var list := if digest in batchToHeaders then batchToHeaders[digest] else [];
      batchToHeaders := batchToHeaders - {digest};
      ready := [];
      for i := 0 to |list|
        invariant (pendingHeaders, ready) == Woken(old(pendingHeaders), list[..i], digest)
        invariant pendingRequests == old(pendingRequests) - {digest} && batchToHeaders == old(batchToHeaders) - {digest}
        invariant stored == old(stored)
      {
        assert list[..i + 1][..i] == list[..i];
        var hd := list[i];
        if hd in pendingHeaders {
          var entry := pendingHeaders[hd];
          var missing := entry.missing - {digest};
          if missing == {} {
            ready := ready + [entry.header];
            pendingHeaders := pendingHeaders - {hd};
          } else {
            pendingHeaders := pendingHeaders[hd := Entry(entry.header, missing)];
          }
        }
      }
      assert list[..|list|] == list;
    }

    // A batch from a peer: store it, then wake its headers.
    method HandleBatch(digest: Hash) returns (ready: seq<Header>)
      modifies this
      ensures (State(), ready) == DeliverSpec(old(State()), digest)
    {
      stored := stored + {digest};
      ready := NotifyBatchReceived(digest);
    }

    // Given the headers that have waited too long: exactly these go, and the requests made for
    // them stay.
    method CleanupTimedOutHeaders(expired: set<Hash>)
      modifies this
      ensures State() == Step(cfg, old(State()), ExpireHeaders(expired))
    {
      var toRemove := ExpiredHeaders(expired);
      DropExactly(pendingHeaders, toRemove, expired);
      DropHeaders(toRemove);
    }

    method DropHeaders(toRemove: seq<Hash>)
      modifies this`pendingHeaders
      ensures pendingHeaders == old(pendingHeaders) - Elems(toRemove)
    {
      for i := 0 to |toRemove|
        invariant pendingHeaders == old(pendingHeaders) - Elems(toRemove[..i])
      {
        ElemsUpTo(toRemove, i);
        pendingHeaders := pendingHeaders - {toRemove[i]};
      }
      assert toRemove[..|toRemove|] == toRemove;
    }

    method ExpiredHeaders(expired: set<Hash>) returns (toRemove: seq<Hash>)
      ensures Elems(toRemove) == pendingHeaders.Keys * expired
    {
      toRemove := [];
      var todo := pendingHeaders.Keys;
      while todo != {}
        invariant todo <= pendingHeaders.Keys && Elems(toRemove) == (pendingHeaders.Keys - todo) * expired
        decreases todo
      {
        var hd := Pick(todo);
        if hd in expired {
          ElemsAppend(toRemove, [hd]);
          toRemove := toRemove + [hd];
        }
        todo := todo - {hd};
      }
    }

    // Retry expired requests; give up on those out of retries, together with their headers.
    method CleanupTimedOutRequests(expired: set<Hash>, validators: seq<nat>)
      modifies this
      ensures State() == ExpireRequestsSpec(cfg, old(State()), expired, validators)
    {
      var failed;
      pendingRequests, failed := RetryExpired(expired, validators);
      CleanupFailedBatchHeaders(failed);
    }

    // The requests that go on, with expired ones retried, and those that have failed.
    method RetryExpired(expired: set<Hash>, validators: seq<nat>)
      returns (requests: map<Hash, Request>, failed: set<Hash>)
      ensures failed == Failed(cfg, State(), expired)
      ensures requests == RetriedRequests(cfg, State(), expired, validators, {})
    {
      failed, requests := {}, map[];
      var todo := pendingRequests.Keys;
      while todo != {}
        invariant todo <= pendingRequests.Keys && failed == Failed(cfg, State(), expired) - todo
        invariant requests == RetriedRequests(cfg, State(), expired, validators, todo)
        decreases todo
      {
        var d := Pick(todo);
        var req := pendingRequests[d];
        if d in expired {
          if req.retries < cfg.maxRetries {
            var next := PickValidator(validators, req.validator);
            requests := requests[d := Request(req.retries + 1, next)];
          } else {
            failed := failed + {d};
          }
        } else {
          requests := requests[d := req];
        }
        todo := todo - {d};
      }
    }

    method CleanupFailedBatchHeaders(failed: set<Hash>)
      modifies this`pendingHeaders, this`batchToHeaders
      ensures pendingHeaders == old(pendingHeaders) - HeadersOf(old(batchToHeaders), failed)
      ensures batchToHeaders == old(batchToHeaders) - failed
    {
      var gone: set<Hash> := {};
      var todo := failed;
      while todo != {}
        invariant todo <= failed && batchToHeaders == old(batchToHeaders) - (failed - todo)
        invariant gone == HeadersOf(old(batchToHeaders), failed - todo) && pendingHeaders == old(pendingHeaders)
        decreases todo
      {
        var d := Pick(todo);
        HeadersOfGrows(old(batchToHeaders), failed - todo, d);
        if d in batchToHeaders {
          gone := gone + (set hd | hd in batchToHeaders[d]);
        }
        assert failed - (todo - {d}) == (failed - todo) + {d};
        todo := todo - {d};
        batchToHeaders := batchToHeaders - {d};
      }
      assert failed - todo == failed;
      pendingHeaders := pendingHeaders - gone;
    }

    method PickValidator(validators: seq<nat>, asked: nat) returns (next: nat)
      ensures next == NextValidator(validators, asked)
    {
      for i := 0 to |validators|
        invariant NextValidator(validators, asked) == NextValidator(validators[i..], asked)
      {
        assert validators[i..][1..] == validators[i + 1..];
        if validators[i] != asked {
          return validators[i];
        }
      }
      return asked;
    }
  }
}
