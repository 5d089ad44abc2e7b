// Requests for missing batches (primary/batch_fetcher.go): whom they go to and when they are given
// up.
module Retries {
  import opened Types
  import opened Fetcher

  // ---- The next validator to ask -----------------------------------------------------------------------

  // The first k are the validator just asked, and the next is another.
  ghost predicate FirstOther(validators: seq<nat>, asked: nat, k: nat) {
    k < |validators| && validators[k] != asked && forall i :: 0 <= i < k ==> validators[i] == asked
  }

  // A retry goes to the first listed validator other than the one just asked, if there is one.
  lemma {:induction false} NextValidatorIs(validators: seq<nat>, asked: nat)
    ensures var next := NextValidator(validators, asked);
      if forall i :: 0 <= i < |validators| ==> validators[i] == asked then next == asked
      else next != asked && exists k: nat :: FirstOther(validators, asked, k) && validators[k] == next
    decreases |validators|
  {
    if validators != [] {
      if validators[0] != asked {
        assert FirstOther(validators, asked, 0);
      } else {
        var rest := validators[1..];
        NextValidatorIs(rest, asked);
        assert forall i :: 0 <= i < |validators| ==> validators[i] == if i == 0 then asked else rest[i - 1];
        if j :| 0 <= j < |rest| && rest[j] != asked {
          var k: nat :| FirstOther(rest, asked, k) && rest[k] == NextValidator(rest, asked);
          assert FirstOther(validators, asked, k + 1) && validators[k + 1] == NextValidator(rest, asked);
          assert validators[j + 1] != asked;
        }
      }
    }
  }

  // ---- How often a batch is asked for ---------------------------------------------------------------------

  // The request for d has been outstanding since event i.
  ghost predicate OpenSince(cfg: Config, es: seq<Event>, i: nat, d: Hash) {
    && i < |es| && d !in Run(cfg, es[..i]).requests
    && forall k :: i < k <= |es| ==> d in Run(cfg, es[..k]).requests
  }

  ghost predicate Expires(e: Event, d: Hash) { e.ExpireRequests? && d in e.expired }

  // How often the request expired after event i.
  ghost function Expirations(es: seq<Event>, i: nat, d: Hash): nat
    requires i < |es|
    decreases |es|
  {
    if |es| == i + 1 then 0
    else Expirations(es[..|es| - 1], i, d) + (if Expires(es[|es| - 1], d) then 1 else 0)
  }

  // One event on an outstanding request: an expiry retries it with the next validator, or, at the
  // limit, gives it up; the batch's arrival ends it; nothing else touches it.
  lemma StepOnRequest(cfg: Config, s: FetcherState, e: Event, d: Hash)
    requires d in s.requests
    ensures var s', was := Step(cfg, s, e), s.requests[d];
      if e == Deliver(d) || (Expires(e, d) && was.retries >= cfg.maxRetries) then d !in s'.requests
      else if Expires(e, d) then
        d in s'.requests && s'.requests[d] == Request(was.retries + 1, NextValidator(e.validators, was.validator))
      else d in s'.requests && s'.requests[d] == was
  {}

  // A request starts with the author of the header that needs it.
  lemma StepOpens(cfg: Config, s: FetcherState, e: Event, d: Hash)
    requires d !in s.requests && d in Step(cfg, s, e).requests
    ensures e.Track? && d in e.h.BatchDigests() - s.stored && Step(cfg, s, e).requests[d] == Request(0, e.h.author)
  {
    if e.Track? {
      MissingElems(e.h.batchRefs, s.stored);
    }
  }

  lemma PrefixRun(cfg: Config, es: seq<Event>, e: Event, i: nat, d: Hash)
    requires OpenSince(cfg, es, i, d) && d in Run(cfg, es + [e]).requests
    ensures OpenSince(cfg, es + [e], i, d)
  {
    assert (es + [e])[..i] == es[..i];
    forall k | i < k <= |es + [e]| ensures d in Run(cfg, (es + [e])[..k]).requests {
      if k <= |es| {
        assert (es + [e])[..k] == es[..k];
      } else {
        assert (es + [e])[..k] == es + [e];
      }
    }
  }

  // Event i opened the request by tracking a header that misses the batch, asking the header's
  // author, and it has been retried once for each expiry since.
  ghost predicate Retried(cfg: Config, es: seq<Event>, i: nat, d: Hash) {
    && OpenSince(cfg, es, i, d) && es[i].Track? && d in es[i].h.BatchDigests() - Run(cfg, es[..i]).stored
    && Run(cfg, es[..i + 1]).requests[d] == Request(0, es[i].h.author)
    && es[..|es|] == es && Run(cfg, es).requests[d].retries == Expirations(es, i, d)
  }

  lemma RetriedSnoc(cfg: Config, es: seq<Event>, e: Event, i: nat, d: Hash)
    requires Retried(cfg, es, i, d) && d in Run(cfg, es + [e]).requests
    ensures Retried(cfg, es + [e], i, d)
  {
    var all := es + [e];
    PrefixRun(cfg, es, e, i, d);
    assert all[..i] == es[..i] && all[..i + 1] == es[..i + 1] && all[..|es|] == es;
    RunSnoc(cfg, es, e);
    StepOnRequest(cfg, Run(cfg, es), e, d);
    assert Expirations(all, i, d) == Expirations(es, i, d) + if Expires(e, d) then 1 else 0;
  }

  lemma RetriedOpen(cfg: Config, es: seq<Event>, e: Event, d: Hash)
    requires d !in Run(cfg, es).requests && d in Run(cfg, es + [e]).requests
    ensures Retried(cfg, es + [e], |es|, d)
  {
    var all := es + [e];
    assert all[..|es|] == es && all[..|es| + 1] == all;
    RunSnoc(cfg, es, e);
    StepOpens(cfg, Run(cfg, es), e, d);
  }

  // In every run this holds of each outstanding request, and no request is retried more often than
  // the limit.
  lemma {:induction false} RetriesAreExpirations(cfg: Config, es: seq<Event>, d: Hash) returns (i: nat)
    requires d in Run(cfg, es).requests
    ensures Retried(cfg, es, i, d) && Expirations(es, i, d) <= cfg.maxRetries
    decreases |es|
  {
    assert es != [];
    var before, e := es[..|es| - 1], es[|es| - 1];
    assert es == before + [e];
    if d in Run(cfg, before).requests {
      i := RetriesAreExpirations(cfg, before, d);
      RetriedSnoc(cfg, before, e, i, d);
    } else {
      i := |before|;
      RetriedOpen(cfg, before, e, d);
    }
    RunKeepsInv(cfg, es);
  }

  // So a request ends when its batch arrives or when it expires after the last retry, and not
  // before.
  lemma EndsIff(cfg: Config, es: seq<Event>, e: Event, d: Hash) returns (i: nat)
    requires d in Run(cfg, es).requests
    ensures OpenSince(cfg, es, i, d)
    ensures d !in Run(cfg, es + [e]).requests <==>
      e == Deliver(d) || (Expires(e, d) && Expirations(es, i, d) == cfg.maxRetries)
  {
    i := RetriesAreExpirations(cfg, es, d);
    RunSnoc(cfg, es, e);
    StepOnRequest(cfg, Run(cfg, es), e, d);
  }
}
