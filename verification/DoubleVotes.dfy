// Evidence of double votes (primary/vote_tracker.go): whom the vote tracker accuses.
module DoubleVotes {
  import opened Types
  import opened Votes
  import opened Voting

  // The votes an event casts: a genuine one that arrives, or this validator's own.
  ghost function CastBy(cfg: Config, e: Event): set<Vote> {
    if e.VoteMsg? && Genuine(cfg, e.vote) then {e.vote}
    else if e.Create? then {SelfVote(cfg.self, e.header.digest, e.nonce)}
    else {}
  }

  ghost function CastIn(cfg: Config, es: seq<Event>): set<Vote> {
    if es == [] then {} else CastIn(cfg, es[..|es| - 1]) + CastBy(cfg, es[|es| - 1])
  }

  // Two of the votes, of one validator for one header, with different signatures.
  ghost predicate Conflict(casts: set<Vote>, e: Evidence) {
    && e.vote1 in casts && e.vote2 in casts
    && e.vote1.validator == e.vote2.validator && e.vote1.headerDigest == e.vote2.headerDigest
    && e.vote1.signature != e.vote2.signature
  }

  // What the tracker records was cast, and what it accuses conflicts.
  ghost predicate Honest(casts: set<Vote>, t: Tracker) {
    && (forall v, h :: Recorded(t, v, h) ==>
          var vote := t.byValidator[v][h]; vote in casts && vote.validator == v && vote.headerDigest == h)
    && forall i :: 0 <= i < |t.evidence| ==> Conflict(casts, t.evidence[i])
  }

  ghost predicate HonestState(casts: set<Vote>, s: VotingState) {
    Honest(casts, s.tracker) && forall h, i :: h in s.early && 0 <= i < |s.early[h]| ==> s.early[h][i] in casts
  }

  lemma RecordHonest(casts: set<Vote>, t: Tracker, vote: Vote)
    requires Honest(casts, t) && vote in casts
    ensures Honest(casts, RecordSpec(t, vote))
  {
    var t' := RecordSpec(t, vote);
    forall v, h | Recorded(t', v, h)
      ensures t'.byValidator[v][h] in casts && t'.byValidator[v][h].validator == v
      ensures t'.byValidator[v][h].headerDigest == h
    {
      assert (v == vote.validator && h == vote.headerDigest && t'.byValidator[v][h] == vote)
        || (Recorded(t, v, h) && t'.byValidator[v][h] == t.byValidator[v][h]);
    }
  }

  lemma CountHonest(casts: set<Vote>, t: Tracker, vote: Vote, q: nat)
    requires Honest(casts, t) && vote in casts
    ensures Honest(casts, CountSpec(t, vote, q).0)
  {
    RecordHonest(casts, t, vote);
    DropHonest(casts, RecordSpec(t, vote), vote.headerDigest);
  }

  lemma DropHonest(casts: set<Vote>, t: Tracker, h: Hash)
    requires Honest(casts, t)
    ensures Honest(casts, RemoveSpec(t, h))
  {
    assert forall v, x :: Recorded(RemoveSpec(t, h), v, x) ==> Recorded(t, v, x);
  }

  lemma {:induction false} CountAllHonest(casts: set<Vote>, t: Tracker, votes: seq<Vote>, q: nat)
    requires Honest(casts, t) && forall i :: 0 <= i < |votes| ==> votes[i] in casts
    ensures Honest(casts, CountAllSpec(t, votes, q).0)
    decreases |votes|
  {
    if votes != [] {
      CountHonest(casts, t, votes[0], q);
      var (t', formed) := CountSpec(t, votes[0], q);
      if formed.None? {
        CountAllHonest(casts, t', votes[1..], q);
      }
    }
  }

  lemma MoreCasts(casts: set<Vote>, more: set<Vote>, s: VotingState)
    requires HonestState(casts, s) && casts <= more
    ensures HonestState(more, s)
  {
    forall i | 0 <= i < |s.tracker.evidence| ensures Conflict(more, s.tracker.evidence[i]) {
      assert Conflict(casts, s.tracker.evidence[i]);
    }
  }

  lemma CreateHonest(cfg: Config, casts: set<Vote>, s: VotingState, h: Header, nonce: nat)
    requires HonestState(casts, s) && SelfVote(cfg.self, h.digest, nonce) in casts
    ensures HonestState(casts, CreateSpec(cfg, s, h, nonce).0)
  {
    var own := SelfVote(cfg.self, h.digest, nonce);
    CountHonest(casts, TrackSpec(s.tracker, h), own, Needed(cfg));
    var (t1, formed) := CountSpec(TrackSpec(s.tracker, h), own, Needed(cfg));
    CountAllHonest(casts, t1, Buffered(s.early, h.digest), Needed(cfg));
  }

  lemma StepHonest(cfg: Config, casts: set<Vote>, s: VotingState, e: Event)
    requires HonestState(casts, s) && CastBy(cfg, e) <= casts
    ensures HonestState(casts, Step(cfg, s, e).0)
  {
    match e
    case VoteMsg(vote) =>
      if Genuine(cfg, vote) && vote.headerDigest in s.tracker.pending {
        CountHonest(casts, s.tracker, vote, Needed(cfg));
      }
    case Create(h, nonce) => CreateHonest(cfg, casts, s, h, nonce);
    case Cleanup(oldVotes, timedOut) =>
  }

  lemma {:induction false} RunHonest(cfg: Config, es: seq<Event>)
    ensures HonestState(CastIn(cfg, es), Run(cfg, es).0)
    decreases |es|
  {
    if es != [] {
      RunHonest(cfg, es[..|es| - 1]);
      MoreCasts(CastIn(cfg, es[..|es| - 1]), CastIn(cfg, es), Run(cfg, es[..|es| - 1]).0);
      StepHonest(cfg, CastIn(cfg, es), Run(cfg, es[..|es| - 1]).0, es[|es| - 1]);
    }
  }

  // In every run, cleanup included, each accusation names two votes that were cast, by one validator
  // for one header, with different signatures.
  lemma AccusedDoubleVoted(cfg: Config, es: seq<Event>, k: nat)
    requires k < |Run(cfg, es).0.tracker.evidence|
    ensures Conflict(CastIn(cfg, es), Run(cfg, es).0.tracker.evidence[k])
  {
    RunHonest(cfg, es);
  }

  ghost predicate SignsOnce(casts: set<Vote>, v: nat) {
    forall a, b :: a in casts && b in casts && a.validator == v && b.validator == v ==>
      a.headerDigest == b.headerDigest ==> a.signature == b.signature
  }

  // So a validator that signs each header at most once is never accused, however often its votes
  // arrive.
  lemma SingleSignerIsNotAccused(cfg: Config, es: seq<Event>, v: nat, k: nat)
    requires k < |Run(cfg, es).0.tracker.evidence|
    requires SignsOnce(CastIn(cfg, es), v)
    ensures Run(cfg, es).0.tracker.evidence[k].vote1.validator != v
  {
    AccusedDoubleVoted(cfg, es, k);
  }

  // A vote that arrives adds an accusation exactly when its header is tracked and a vote of the same
  // validator for it, with another signature, is on record.
  lemma AccusesIff(cfg: Config, s: VotingState, vote: Vote)
    requires Genuine(cfg, vote)
    ensures var more := Step(cfg, s, VoteMsg(vote)).0.tracker.evidence;
      more != s.tracker.evidence <==>
        vote.headerDigest in s.tracker.pending && Recorded(s.tracker, vote.validator, vote.headerDigest)
        && s.tracker.byValidator[vote.validator][vote.headerDigest].signature != vote.signature
  {
    var t := s.tracker;
    if Recorded(t, vote.validator, vote.headerDigest) {
      var first := t.byValidator[vote.validator][vote.headerDigest];
      assert |t.evidence + [Evidence(first, vote)]| == |t.evidence| + 1;
    }
  }
}
