// Exactly when a header is certified (primary/primary.go, primary/vote_tracker.go), with votes that
// come early, late or twice, and with buffered votes and headers that time out.
module Tally {
  import opened Types
  import opened Lists
  import opened Votes
  import opened Voting

  // ---- Counting votes for one header ----------------------------------------------------------------

  // The votes on record for h are exactly those it has collected.
  ghost predicate Kept(t: Tracker, h: Hash) {
    h in t.pending && forall v :: Recorded(t, v, h) <==> v in t.pending[h].votes
  }

  // Counting the votes of more: the header completes exactly when its voters with these reach a
  // quorum, and otherwise holds them all.
  ghost predicate Tallied(t: Tracker, t': Tracker, formed: Option<Pending>, h: Hash, more: set<nat>, q: nat)
    requires h in t.pending
  {
    && (formed.Some? <==> |t.pending[h].votes.Keys + more| >= q)
    && (formed.None? ==> Kept(t', h) && t'.pending[h].votes.Keys == t.pending[h].votes.Keys + more)
  }

  lemma RecordKept(t: Tracker, vote: Vote)
    requires Kept(t, vote.headerDigest)
    ensures Kept(RecordSpec(t, vote), vote.headerDigest)
  {
    var h, t' := vote.headerDigest, RecordSpec(t, vote);
    forall v ensures Recorded(t', v, h) <==> v in t'.pending[h].votes {
      assert Recorded(t', v, h) <==> Recorded(t, v, h) || v == vote.validator;
    }
  }

  lemma CountOneKept(t: Tracker, vote: Vote, q: nat)
    requires Kept(t, vote.headerDigest) && |t.pending[vote.headerDigest].votes| < q
    ensures var (t', formed) := CountSpec(t, vote, q); Tallied(t, t', formed, vote.headerDigest, {vote.validator}, q)
  {
    var h, v := vote.headerDigest, vote.validator;
    var votes := t.pending[h].votes;
    RecordKept(t, vote);
    RecordVotes(t, vote);
    CastKeys(votes, vote);
    assert VotesAfter(t, vote).Keys == votes.Keys + {v};
    assert |VotesAfter(t, vote)| == |VotesAfter(t, vote).Keys|;
  }

  lemma {:induction false} CountAllKept(t: Tracker, votes: seq<Vote>, h: Hash, q: nat)
    requires Kept(t, h) && |t.pending[h].votes| < q
    requires forall i :: 0 <= i < |votes| ==> votes[i].headerDigest == h
    ensures var (t', formed) := CountAllSpec(t, votes, q); Tallied(t, t', formed, h, Voters(votes), q)
    decreases |votes|, 1
  {
    if votes == [] {
      assert t.pending[h].votes.Keys + Voters(votes) == t.pending[h].votes.Keys;
    } else {
      CountOneKept(t, votes[0], q);
      var (t1, formed) := CountSpec(t, votes[0], q);
      CountRestKept(t, votes, h, q, t1, formed);
    }
  }

  lemma {:induction false} CountRestKept(t: Tracker, votes: seq<Vote>, h: Hash, q: nat, t1: Tracker,
                                         formed: Option<Pending>)
    requires h in t.pending && votes != [] && (forall i :: 0 <= i < |votes| ==> votes[i].headerDigest == h)
    requires Tallied(t, t1, formed, h, {votes[0].validator}, q)
    ensures var (t', formed') := if formed.Some? then (t1, formed) else CountAllSpec(t1, votes[1..], q);
      Tallied(t, t', formed', h, Voters(votes), q)
    decreases |votes|, 0
  {
    VotersSplit(votes);
    if formed.None? {
      ShortOf(t, t1, h, {votes[0].validator}, q);
      CountAllKept(t1, votes[1..], h, q);
      var (t2, formed2) := CountAllSpec(t1, votes[1..], q);
      TalliedThen(t, t1, t2, formed2, h, {votes[0].validator}, Voters(votes[1..]), q);
    } else {
      TalliedMore(t, t1, formed, h, {votes[0].validator}, Voters(votes), q);
    }
  }

  lemma ShortOf(t: Tracker, t1: Tracker, h: Hash, a: set<nat>, q: nat)
    requires h in t.pending && Tallied(t, t1, None, h, a, q)
    ensures |t1.pending[h].votes| < q
  {
    assert |t1.pending[h].votes| == |t1.pending[h].votes.Keys|;
  }

  lemma TalliedThen(t: Tracker, t1: Tracker, t2: Tracker, formed: Option<Pending>, h: Hash, a: set<nat>, b: set<nat>,
                    q: nat)
    requires h in t.pending && Tallied(t, t1, None, h, a, q) && Tallied(t1, t2, formed, h, b, q)
    ensures Tallied(t, t2, formed, h, a + b, q)
  {
    assert t.pending[h].votes.Keys + (a + b) == t.pending[h].votes.Keys + a + b;
  }

  lemma TalliedMore(t: Tracker, t1: Tracker, formed: Option<Pending>, h: Hash, a: set<nat>, b: set<nat>, q: nat)
    requires h in t.pending && formed.Some? && Tallied(t, t1, formed, h, a, q) && a <= b
    ensures Tallied(t, t1, formed, h, b, q)
  {
    CardMono(t.pending[h].votes.Keys + a, t.pending[h].votes.Keys + b);
  }

  // ---- What counts, read off the events ----------------------------------------------------------------

  // The voter of a genuine vote message for d.
  ghost function VoteOf(cfg: Config, e: Event, d: Hash): set<nat> {
    if e.VoteMsg? && Genuine(cfg, e.vote) && e.vote.headerDigest == d then {e.vote.validator} else {}
  }

  // Those whose votes for d have not been cleaned out of the buffer.
  ghost function EarlyVoters(cfg: Config, es: seq<Event>, d: Hash): set<nat> {
    if es == [] then {}
    else
      var before, e := es[..|es| - 1], es[|es| - 1];
      if e.Cleanup? && d in e.oldVotes then {} else EarlyVoters(cfg, before, d) + VoteOf(cfg, e, d)
  }

  // d was timed out after it was created.
  ghost predicate TimedOut(es: seq<Event>, d: Hash) {
    if es == [] then false
    else
      var before, e := es[..|es| - 1], es[|es| - 1];
      TimedOut(before, d) || (e.Cleanup? && d in e.timedOut && Created(before, d))
  }

  // Those whose votes count for d: the buffered ones and the author's when it is created, and from
  // then on every genuine one until it times out.
  ghost function CountedVoters(cfg: Config, es: seq<Event>, d: Hash): set<nat> {
    if es == [] then {}
    else
      var before, e := es[..|es| - 1], es[|es| - 1];
      if Creates(e, d) then EarlyVoters(cfg, before, d) + {cfg.self}
      else if Created(before, d) && !TimedOut(before, d) then CountedVoters(cfg, before, d) + VoteOf(cfg, e, d)
      else CountedVoters(cfg, before, d)
  }

  // ---- The invariant ------------------------------------------------------------------------------------

  // What the state says of header d, given whether it was created and timed out, who is in the
  // buffer and who counts.
  ghost predicate Full(cfg: Config, s: VotingState, certs: seq<Pending>, d: Hash,
                       made: bool, out: bool, early: set<nat>, counted: set<nat>) {
    if !made then Voters(Buffered(s.early, d)) == early && forall v :: !Recorded(s.tracker, v, d)
    else if |counted| >= Needed(cfg) then Certified(certs, d)
    else if !out then Kept(s.tracker, d) && s.tracker.pending[d].votes.Keys == counted
    else !Certified(certs, d) && d !in s.tracker.pending && forall v :: Recorded(s.tracker, v, d) <==> v in counted
  }

  lemma FullElsewhere(cfg: Config, s: VotingState, s': VotingState, certs: seq<Pending>, more: seq<Pending>, h: Hash,
                      d: Hash, made: bool, out: bool, early: set<nat>, counted: set<nat>)
    requires Local(s, s', more, h) && d != h && Full(cfg, s, certs, d, made, out, early, counted)
    ensures Full(cfg, s', certs + more, d, made, out, early, counted)
  {
    CertifiedSnoc(certs, more, h, d);
  }

  lemma BufferFull(cfg: Config, s: VotingState, certs: seq<Pending>, vote: Vote, made: bool, out: bool, early: set<nat>,
                   counted: set<nat>)
    requires Full(cfg, s, certs, vote.headerDigest, made, out, early, counted)
      && vote.headerDigest !in s.tracker.pending
    ensures Full(cfg, s.(early := s.early[vote.headerDigest := Buffered(s.early, vote.headerDigest) + [vote]]), certs,
              vote.headerDigest, made, out, early + {vote.validator},
              if made && !out then counted + {vote.validator} else counted)
  {
    var buffered := Buffered(s.early, vote.headerDigest);
    assert Voters(buffered + [vote]) == Voters(buffered) + {vote.validator};
    CardMono(counted, counted + {vote.validator});
  }

  // A tracked header has not timed out and holds exactly the votes that count.
  lemma TrackedIsKept(cfg: Config, s: VotingState, certs: seq<Pending>, h: Hash, made: bool, voters: set<nat>,
                      out: bool, early: set<nat>, counted: set<nat>)
    requires Sound(cfg, s, certs, h, made, voters) && Full(cfg, s, certs, h, made, out, early, counted)
      && h in s.tracker.pending
    ensures made && !out && |counted| < Needed(cfg) && Kept(s.tracker, h) && s.tracker.pending[h].votes.Keys == counted
  {}

  lemma TalliedFull(cfg: Config, s: VotingState, t': Tracker, certs: seq<Pending>, formed: Option<Pending>, h: Hash,
                    early: set<nat>, counted: set<nat>, more: set<nat>)
    requires h in s.tracker.pending && s.tracker.pending[h].votes.Keys == counted
    requires Tallied(s.tracker, t', formed, h, more, Needed(cfg)) && (formed.Some? ==> formed.value.header.digest == h)
    ensures Full(cfg, s.(tracker := t'), certs + Listed(formed), h, true, false, early, counted + more)
  {
    CertifiedSnoc(certs, Listed(formed), h, h);
  }

  lemma VoteFull(cfg: Config, s: VotingState, certs: seq<Pending>, vote: Vote, made: bool, voters: set<nat>,
                 out: bool, early: set<nat>, counted: set<nat>)
    requires Filed(s.tracker) && Genuine(cfg, vote)
    requires Sound(cfg, s, certs, vote.headerDigest, made, voters)
      && Full(cfg, s, certs, vote.headerDigest, made, out, early, counted)
    ensures var (s', formed) := VoteSpec(cfg, s, vote);
      Full(cfg, s', certs + Listed(formed), vote.headerDigest, made, out, early + {vote.validator},
        if made && !out then counted + {vote.validator} else counted)
  {
    var h := vote.headerDigest;
    if h !in s.tracker.pending {
      assert certs + [] == certs;
      BufferFull(cfg, s, certs, vote, made, out, early, counted);
    } else {
      TrackedIsKept(cfg, s, certs, h, made, voters, out, early, counted);
      assert |s.tracker.pending[h].votes| == |s.tracker.pending[h].votes.Keys|;
      CountOneKept(s.tracker, vote, Needed(cfg));
      VoteKept(cfg, s, certs, vote, made, voters);
      var (t', formed) := CountSpec(s.tracker, vote, Needed(cfg));
      TalliedFull(cfg, s, t', certs, formed, h, early + {vote.validator}, counted, {vote.validator});
    }
  }

  // The author's own vote, then the buffered ones.
  lemma CountOwnKept(t: Tracker, vote: Vote, early: seq<Vote>, q: nat)
    requires Kept(t, vote.headerDigest) && |t.pending[vote.headerDigest].votes| < q
    requires forall i :: 0 <= i < |early| ==> early[i].headerDigest == vote.headerDigest
    ensures var (t1, own) := CountSpec(t, vote, q); var (t2, formed) := CountAllSpec(t1, early, q);
      && (own.None? ==> Tallied(t, t2, formed, vote.headerDigest, {vote.validator} + Voters(early), q))
      && (own.Some? ==> |t.pending[vote.headerDigest].votes.Keys + {vote.validator}| >= q)
  {
    CountOneKept(t, vote, q);
    var (t1, own) := CountSpec(t, vote, q);
    if own.None? {
      CountRestOf(t, t1, vote, early, q);
    }
  }

  lemma CountRestOf(t: Tracker, t1: Tracker, vote: Vote, early: seq<Vote>, q: nat)
    requires vote.headerDigest in t.pending && Tallied(t, t1, None, vote.headerDigest, {vote.validator}, q)
    requires forall i :: 0 <= i < |early| ==> early[i].headerDigest == vote.headerDigest
    ensures var (t2, formed) := CountAllSpec(t1, early, q);
      Tallied(t, t2, formed, vote.headerDigest, {vote.validator} + Voters(early), q)
  {
    ShortOf(t, t1, vote.headerDigest, {vote.validator}, q);
    CountAllKept(t1, early, vote.headerDigest, q);
    var (t2, formed) := CountAllSpec(t1, early, q);
    TalliedThen(t, t1, t2, formed, vote.headerDigest, {vote.validator}, Voters(early), q);
  }

  lemma FreshIsKept(t: Tracker, h: Header)
    requires h.digest !in t.pending && forall v :: !Recorded(t, v, h.digest)
    ensures Kept(TrackSpec(t, h), h.digest) && TrackSpec(t, h).pending[h.digest].votes == map[]
  {
    var t0 := TrackSpec(t, h);
    forall v ensures Recorded(t0, v, h.digest) <==> v in t0.pending[h.digest].votes {
      assert !Recorded(t, v, h.digest);
    }
  }

  lemma CreateFull(cfg: Config, s: VotingState, certs: seq<Pending>, h: Header, nonce: nat)
    requires Filed(s.tracker) && h.digest !in s.tracker.pending && OwnHeader(cfg, h) && cfg.self in cfg.validators
    requires AllFor(cfg, Buffered(s.early, h.digest), h.digest) && forall v :: !Recorded(s.tracker, v, h.digest)
    ensures var (s', own, formed) := CreateSpec(cfg, s, h, nonce); var early := Voters(Buffered(s.early, h.digest));
      forall e :: Full(cfg, s', certs + (Listed(own) + Listed(formed)), h.digest, true, false, e, early + {cfg.self})
  {
    var early := Buffered(s.early, h.digest);
    var t0, vote := TrackSpec(s.tracker, h), SelfVote(cfg.self, h.digest, nonce);
    FreshIsKept(s.tracker, h);
    CreateMakes(cfg, s, h, nonce, Voters(early));
    CountOwnKept(t0, vote, early, Needed(cfg));
    var (s', own, formed) := CreateSpec(cfg, s, h, nonce);
    forall e: set<nat>
      ensures Full(cfg, s', certs + (Listed(own) + Listed(formed)), h.digest, true, false, e,
        Voters(early) + {cfg.self}) {
      MadeFull(cfg, s, t0, s', certs, own, formed, h.digest, Voters(early), e);
    }
  }

  lemma MadeFull(cfg: Config, s: VotingState, t0: Tracker, s': VotingState, certs: seq<Pending>,
                 own: Option<Pending>, formed: Option<Pending>, h: Hash, voters: set<nat>, early: set<nat>)
    requires h in t0.pending && t0.pending[h].votes == map[]
    requires Made(cfg, s, s', Listed(own) + Listed(formed), h, voters + {cfg.self})
    requires own.None? ==> Tallied(t0, s'.tracker, formed, h, {cfg.self} + voters, Needed(cfg))
    requires own.Some? ==> |t0.pending[h].votes.Keys + {cfg.self}| >= Needed(cfg)
    ensures Full(cfg, s', certs + (Listed(own) + Listed(formed)), h, true, false, early, voters + {cfg.self})
  {
    CertifiedSnoc(certs, Listed(own) + Listed(formed), h, h);
    assert t0.pending[h].votes.Keys + ({cfg.self} + voters) == voters + {cfg.self};
    if own.Some? {
      CardMono(t0.pending[h].votes.Keys + {cfg.self}, voters + {cfg.self});
    }
  }

  // Cleanup empties buffers and drops headers, but not the votes on record for them.
  lemma CleanupFull(cfg: Config, s: VotingState, certs: seq<Pending>, oldVotes: set<Hash>, timedOut: set<Hash>, d: Hash,
                    made: bool, voters: set<nat>, out: bool, early: set<nat>, counted: set<nat>)
    requires Sound(cfg, s, certs, d, made, voters) && Full(cfg, s, certs, d, made, out, early, counted)
    ensures Full(cfg, CleanupSpec(s, oldVotes, timedOut), certs, d, made, out || (d in timedOut && made),
              if d in oldVotes then {} else early, counted)
  {
    var s' := CleanupSpec(s, oldVotes, timedOut);
    assert s'.tracker.byValidator == s.tracker.byValidator;
    forall v ensures Recorded(s'.tracker, v, d) <==> Recorded(s.tracker, v, d) {}
  }

  // ---- Whole runs ---------------------------------------------------------------------------------------

  ghost predicate FullFor(cfg: Config, es: seq<Event>, s: VotingState, certs: seq<Pending>, d: Hash) {
    Full(cfg, s, certs, d, Created(es, d), TimedOut(es, d), EarlyVoters(cfg, es, d), CountedVoters(cfg, es, d))
  }

  lemma QuietSnoc(cfg: Config, es: seq<Event>, d: Hash)
    requires es != [] && !es[|es| - 1].Cleanup? && Subject(es[|es| - 1]) != d
    ensures Created(es, d) == Created(es[..|es| - 1], d) && TimedOut(es, d) == TimedOut(es[..|es| - 1], d)
    ensures EarlyVoters(cfg, es, d) == EarlyVoters(cfg, es[..|es| - 1], d)
    ensures CountedVoters(cfg, es, d) == CountedVoters(cfg, es[..|es| - 1], d)
  {
    CreatedSnoc(es, d);
    assert EarlyVoters(cfg, es[..|es| - 1], d) + {} == EarlyVoters(cfg, es[..|es| - 1], d);
    assert CountedVoters(cfg, es[..|es| - 1], d) + {} == CountedVoters(cfg, es[..|es| - 1], d);
  }

  lemma {:induction false} NotTimedOut(es: seq<Event>, d: Hash)
    requires !Created(es, d)
    ensures !TimedOut(es, d)
    decreases |es|
  {
    if es != [] {
      CreatedSnoc(es, d);
      NotTimedOut(es[..|es| - 1], d);
    }
  }

  lemma CreatedFull(cfg: Config, es: seq<Event>, s: VotingState, certs: seq<Pending>)
    requires es != [] && Proper(cfg, es) && es[|es| - 1].Create? && Inv(cfg, es[..|es| - 1], s, certs)
    requires FullFor(cfg, es[..|es| - 1], s, certs, es[|es| - 1].header.digest)
    ensures var (s', more) := Step(cfg, s, es[|es| - 1]); FullFor(cfg, es, s', certs + more, es[|es| - 1].header.digest)
  {
    var before, e := es[..|es| - 1], es[|es| - 1];
    var h := e.header.digest;
    CreatedSnoc(es, h);
    CreatedOnce(cfg, es);
    NotTimedOut(before, h);
    assert Sound(cfg, s, certs, h, Created(before, h), Supporters(cfg, before, h));
    CreateFull(cfg, s, certs, e.header, e.nonce);
    assert CountedVoters(cfg, es, h) == EarlyVoters(cfg, before, h) + {cfg.self};
  }

  lemma VotedFull(cfg: Config, es: seq<Event>, s: VotingState, certs: seq<Pending>)
    requires es != [] && es[|es| - 1].VoteMsg? && Genuine(cfg, es[|es| - 1].vote) && Inv(cfg, es[..|es| - 1], s, certs)
    requires FullFor(cfg, es[..|es| - 1], s, certs, es[|es| - 1].vote.headerDigest)
    ensures var (s', more) := Step(cfg, s, es[|es| - 1]);
      FullFor(cfg, es, s', certs + more, es[|es| - 1].vote.headerDigest)
  {
    var before, e := es[..|es| - 1], es[|es| - 1];
    var h := e.vote.headerDigest;
    CreatedSnoc(es, h);
    assert Sound(cfg, s, certs, h, Created(before, h), Supporters(cfg, before, h));
    VoteFull(cfg, s, certs, e.vote, Created(before, h), Supporters(cfg, before, h), TimedOut(before, h),
      EarlyVoters(cfg, before, h), CountedVoters(cfg, before, h));
  }

  lemma IgnoredFull(cfg: Config, es: seq<Event>, s: VotingState, certs: seq<Pending>, d: Hash)
    requires es != [] && es[|es| - 1].VoteMsg? && !Genuine(cfg, es[|es| - 1].vote)
      && FullFor(cfg, es[..|es| - 1], s, certs, d)
    ensures var (s', more) := Step(cfg, s, es[|es| - 1]); FullFor(cfg, es, s', certs + more, d)
  {
    var before := es[..|es| - 1];
    CreatedSnoc(es, d);
    assert certs + [] == certs;
    assert EarlyVoters(cfg, before, d) + {} == EarlyVoters(cfg, before, d);
    assert CountedVoters(cfg, before, d) + {} == CountedVoters(cfg, before, d);
  }

  lemma CleanupFullFor(cfg: Config, es: seq<Event>, s: VotingState, certs: seq<Pending>, d: Hash)
    requires es != [] && es[|es| - 1].Cleanup? && Inv(cfg, es[..|es| - 1], s, certs)
      && FullFor(cfg, es[..|es| - 1], s, certs, d)
    ensures var (s', more) := Step(cfg, s, es[|es| - 1]); FullFor(cfg, es, s', certs + more, d)
  {
    var before, e := es[..|es| - 1], es[|es| - 1];
    CreatedSnoc(es, d);
    assert Sound(cfg, s, certs, d, Created(before, d), Supporters(cfg, before, d));
    CleanupFull(cfg, s, certs, e.oldVotes, e.timedOut, d, Created(before, d), Supporters(cfg, before, d),
      TimedOut(before, d), EarlyVoters(cfg, before, d), CountedVoters(cfg, before, d));
    assert certs + [] == certs;
    assert EarlyVoters(cfg, before, d) + {} == EarlyVoters(cfg, before, d);
    assert CountedVoters(cfg, before, d) + {} == CountedVoters(cfg, before, d);
  }

  lemma EventFull(cfg: Config, es: seq<Event>, s: VotingState, certs: seq<Pending>, d: Hash)
    requires es != [] && Proper(cfg, es) && Inv(cfg, es[..|es| - 1], s, certs)
      && FullFor(cfg, es[..|es| - 1], s, certs, d)
    ensures var (s', more) := Step(cfg, s, es[|es| - 1]); FullFor(cfg, es, s', certs + more, d)
  {
    if es[|es| - 1].Cleanup? {
      CleanupFullFor(cfg, es, s, certs, d);
    } else if es[|es| - 1].VoteMsg? && !Genuine(cfg, es[|es| - 1].vote) {
      IgnoredFull(cfg, es, s, certs, d);
    } else if d == Subject(es[|es| - 1]) {
      if es[|es| - 1].Create? {
        CreatedFull(cfg, es, s, certs);
      } else {
        VotedFull(cfg, es, s, certs);
      }
    } else {
      EventHandled(cfg, es, s, certs);
      QuietSnoc(cfg, es, d);
      var (s', more) := Step(cfg, s, es[|es| - 1]);
      FullElsewhere(cfg, s, s', certs, more, Subject(es[|es| - 1]), d, Created(es, d), TimedOut(es, d),
        EarlyVoters(cfg, es, d), CountedVoters(cfg, es, d));
    }
  }

  lemma {:induction false} RunKeepsFull(cfg: Config, es: seq<Event>, d: Hash)
    requires Proper(cfg, es)
    ensures var (s, certs) := Run(cfg, es); FullFor(cfg, es, s, certs, d)
    decreases |es|
  {
    if es != [] {
      RunKeepsFull(cfg, es[..|es| - 1], d);
      RunKeepsInv(cfg, es[..|es| - 1]);
      var (s, certs) := Run(cfg, es[..|es| - 1]);
      EventFull(cfg, es, s, certs, d);
    }
  }

  // ---- The main results -----------------------------------------------------------------------------------

  // In every run, cleanup included, a header has a certificate exactly when it was created and a
  // quorum's votes count: its author's, those still buffered when it was created, and those that
  // came after that and before it timed out.  As prefixes of runs are runs, the certificate comes
  // at the first event that makes this true.
  lemma CertifiedIff(cfg: Config, es: seq<Event>, d: Hash)
    requires Proper(cfg, es)
    ensures Certified(Run(cfg, es).1, d) <==> Created(es, d) && |CountedVoters(cfg, es, d)| >= Needed(cfg)
  {
    RunKeepsInv(cfg, es);
    RunKeepsFull(cfg, es, d);
    var (s, certs) := Run(cfg, es);
    assert Sound(cfg, s, certs, d, Created(es, d), Supporters(cfg, es, d));
  }

  // A header that timed out short of a quorum leaves its votes on record for good.
  lemma TimedOutVotesStay(cfg: Config, es: seq<Event>, d: Hash, v: nat)
    requires Proper(cfg, es) && Created(es, d) && TimedOut(es, d) && |CountedVoters(cfg, es, d)| < Needed(cfg)
    ensures var t := Run(cfg, es).0.tracker; d !in t.pending && (Recorded(t, v, d) <==> v in CountedVoters(cfg, es, d))
  {
    RunKeepsFull(cfg, es, d);
  }

  // Without cleanup every supporter counts.
  lemma {:induction false} AllCount(cfg: Config, es: seq<Event>, d: Hash)
    requires Proper(cfg, es) && Uninterrupted(es)
    ensures !TimedOut(es, d)
    ensures Supporters(cfg, es, d) == if Created(es, d) then CountedVoters(cfg, es, d) else EarlyVoters(cfg, es, d)
    decreases |es|
  {
    if es != [] {
      AllCount(cfg, es[..|es| - 1], d);
      CreatedSnoc(es, d);
      if es[|es| - 1].Create? {
        CreatedOnce(cfg, es);
      }
    }
  }

  // So in every run without cleanup a header has a certificate exactly when it was created and a
  // quorum supports it.
  lemma QuorumCertifies(cfg: Config, es: seq<Event>, d: Hash)
    requires Proper(cfg, es) && Uninterrupted(es)
    ensures Certified(Run(cfg, es).1, d) <==> Created(es, d) && |Supporters(cfg, es, d)| >= Needed(cfg)
  {
    CertifiedIff(cfg, es, d);
    AllCount(cfg, es, d);
  }

  // The order in which votes and headers arrive does not change which headers are certified.
  lemma OrderIrrelevant(cfg: Config, es: seq<Event>, es': seq<Event>, d: Hash)
    requires Proper(cfg, es) && Uninterrupted(es) && Proper(cfg, es') && Uninterrupted(es')
    requires forall e :: e in es <==> e in es'
    ensures Certified(Run(cfg, es).1, d) <==> Certified(Run(cfg, es').1, d)
  {
    QuorumCertifies(cfg, es, d);
    QuorumCertifies(cfg, es', d);
    forall v: nat ensures v in Supporters(cfg, es, d) <==> v in Supporters(cfg, es', d) {
      SupportersMeaning(cfg, es, d, v);
      SupportersMeaning(cfg, es', d, v);
    }
    assert Supporters(cfg, es, d) == Supporters(cfg, es', d);
    assert Created(es, d) <==> exists e :: e in es && Creates(e, d);
    assert Created(es', d) <==> exists e :: e in es' && Creates(e, d);
  }

  // With cleanup a quorum of supporters need not do: votes that come after the header timed out do
  // not count.
  lemma LateVotesDoNotCount(cfg: Config, h: Header, nonce: nat, later: seq<Event>)
    requires cfg.self in cfg.validators && OwnHeader(cfg, h) && Needed(cfg) > 1
    requires forall i :: 0 <= i < |later| ==> later[i].VoteMsg?
    ensures var es := [Create(h, nonce), Cleanup({}, {h.digest})] + later;
      CountedVoters(cfg, es, h.digest) == {cfg.self} && !Certified(Run(cfg, es).1, h.digest)
  {
    CountedThenLate(cfg, h, nonce, later);
    var es := [Create(h, nonce), Cleanup({}, {h.digest})] + later;
    CertifiedIff(cfg, es, h.digest);
  }

  lemma {:induction false} CountedThenLate(cfg: Config, h: Header, nonce: nat, later: seq<Event>)
    requires forall i :: 0 <= i < |later| ==> later[i].VoteMsg?
    ensures var es := [Create(h, nonce), Cleanup({}, {h.digest})] + later;
      TimedOut(es, h.digest) && CountedVoters(cfg, es, h.digest) == {cfg.self}
    decreases |later|
  {
    var start := [Create(h, nonce), Cleanup({}, {h.digest})];
    if later == [] {
      assert start[..1] == [Create(h, nonce)] && [Create(h, nonce)][..0] == [];
      assert Creates([Create(h, nonce)][0], h.digest);
      assert EarlyVoters(cfg, [], h.digest) + {cfg.self} == {cfg.self};
      assert {cfg.self} + {} == {cfg.self};
      assert start + later == start;
    } else {
      var es := start + later;
      CountedThenLate(cfg, h, nonce, later[..|later| - 1]);
      assert es[..|es| - 1] == start + later[..|later| - 1];
    }
  }
}
