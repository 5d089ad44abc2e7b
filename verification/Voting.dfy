// A primary collecting votes over a whole run (primary/primary.go): votes may arrive before or
// after the header they are for, repeatedly, and from anyone.
module Voting {
  import opened Types
  import opened Lists
  import opened Quorum
  import opened Votes

  datatype Config = Config(self: nat, validators: set<nat>)

  // The tracker, and the votes that came before their header.
  datatype VotingState = VotingState(tracker: Tracker, early: map<Hash, seq<Vote>>)

  datatype Event =
    | VoteMsg(vote: Vote)
    | Create(header: Header, nonce: nat)
    | Cleanup(oldVotes: set<Hash>, timedOut: set<Hash>)

  // ---- Specification ------------------------------------------------------------------------

  ghost function Needed(cfg: Config): nat { QuorumSize(|cfg.validators|) }

  ghost predicate Genuine(cfg: Config, vote: Vote) {
    vote.validator in cfg.validators && Signed(vote.signature, vote.validator, vote.headerDigest)
  }

  function SelfVote(self: nat, h: Hash, nonce: nat): Vote { Vote(h, self, Sig(self, h, nonce)) }

  ghost function Buffered(early: map<Hash, seq<Vote>>, h: Hash): seq<Vote> {
    if h in early then early[h] else []
  }

  // Record one vote and, when it completes the header, stop tracking it.
  ghost function CountSpec(t: Tracker, vote: Vote, q: nat): (Tracker, Option<Pending>) {
    var t', formed := RecordSpec(t, vote), FormedBy(t, vote, q);
    if formed.Some? then (RemoveSpec(t', vote.headerDigest), formed) else (t', None)
  }

  // Record votes in order until one completes the header.
  ghost function CountAllSpec(t: Tracker, votes: seq<Vote>, q: nat): (Tracker, Option<Pending>)
    decreases |votes|
  {
    if votes == [] then (t, None)
    else
      var (t', formed) := CountSpec(t, votes[0], q);
      if formed.Some? then (t', formed) else CountAllSpec(t', votes[1..], q)
  }

  ghost function VoteSpec(cfg: Config, s: VotingState, vote: Vote): (VotingState, Option<Pending>) {
    if !Genuine(cfg, vote) then (s, None)
    else if vote.headerDigest !in s.tracker.pending then
      (s.(early := s.early[vote.headerDigest := Buffered(s.early, vote.headerDigest) + [vote]]), None)
    else
      var (t, formed) := CountSpec(s.tracker, vote, Needed(cfg));
      (s.(tracker := t), formed)
  }

  ghost function CreateSpec(cfg: Config, s: VotingState, h: Header, nonce: nat)
    : (VotingState, Option<Pending>, Option<Pending>)
  {
    var (t1, own) := CountSpec(TrackSpec(s.tracker, h), SelfVote(cfg.self, h.digest, nonce), Needed(cfg));
    var (t2, formed) := CountAllSpec(t1, Buffered(s.early, h.digest), Needed(cfg));
    (VotingState(t2, s.early - {h.digest}), own, formed)
  }

  ghost function CleanupSpec(s: VotingState, oldVotes: set<Hash>, timedOut: set<Hash>): VotingState {
    VotingState(TimeOutSpec(s.tracker, timedOut), s.early - oldVotes)
  }

  ghost function Listed(formed: Option<Pending>): seq<Pending> {
    if formed.Some? then [formed.value] else []
  }

  // One event, and the certificates it produces.
  ghost function Step(cfg: Config, s: VotingState, e: Event): (VotingState, seq<Pending>) {
    match e
    case VoteMsg(vote) => (var (s', formed) := VoteSpec(cfg, s, vote); (s', Listed(formed)))
    case Create(h, nonce) =>
      (var (s', own, formed) := CreateSpec(cfg, s, h, nonce); (s', Listed(own) + Listed(formed)))
    case Cleanup(oldVotes, timedOut) => (CleanupSpec(s, oldVotes, timedOut), [])
  }

  ghost function Run(cfg: Config, es: seq<Event>): (VotingState, seq<Pending>) {
    if es == [] then (VotingState(Tracker(map[], map[], []), map[]), [])
    else
      var (s, certs) := Run(cfg, es[..|es| - 1]);
      var (s', more) := Step(cfg, s, es[|es| - 1]);
      (s', certs + more)
  }

  // ---- What a run did, read off its events ------------------------------------------------------

  ghost predicate Creates(e: Event, d: Hash) { e.Create? && e.header.digest == d }

  ghost predicate Created(es: seq<Event>, d: Hash) {
    exists i :: 0 <= i < |es| && Creates(es[i], d)
  }

  // The validator an event shows to support header d.
  ghost function Support(cfg: Config, e: Event, d: Hash): set<nat> {
    if e.VoteMsg? && Genuine(cfg, e.vote) && e.vote.headerDigest == d then {e.vote.validator}
    else if Creates(e, d) then {cfg.self}
    else {}
  }

  ghost function Supporters(cfg: Config, es: seq<Event>, d: Hash): set<nat> {
    if es == [] then {} else Supporters(cfg, es[..|es| - 1], d) + Support(cfg, es[|es| - 1], d)
  }

  // Every header is created once, by this validator, under its own signature.
  ghost predicate Proper(cfg: Config, es: seq<Event>) {
    && cfg.self in cfg.validators
    && (forall i :: 0 <= i < |es| && es[i].Create? ==> OwnHeader(cfg, es[i].header))
    && (forall i, j :: 0 <= i < j < |es| && es[i].Create? && es[j].Create? ==>
      es[i].header.digest != es[j].header.digest)
  }

  ghost predicate OwnHeader(cfg: Config, h: Header) {
    h.author == cfg.self && Signed(h.signature, cfg.self, h.digest)
  }

  ghost predicate Uninterrupted(es: seq<Event>) {
    forall i :: 0 <= i < |es| ==> !es[i].Cleanup?
  }

  ghost predicate Certified(certs: seq<Pending>, d: Hash) {
    exists i :: 0 <= i < |certs| && certs[i].header.digest == d
  }

  ghost predicate AtMostOnce(certs: seq<Pending>) {
    forall i, j :: 0 <= i < j < |certs| ==> certs[i].header.digest != certs[j].header.digest
  }

  // ---- Counting votes for one header ----------------------------------------------------------------

  // The votes are genuine, for h, and each is filed under its voter.
  ghost predicate GenuineVotes(cfg: Config, votes: map<nat, Vote>, h: Hash) {
    forall v :: v in votes ==> Genuine(cfg, votes[v]) && votes[v].validator == v && votes[v].headerDigest == h
  }

  ghost predicate AllFor(cfg: Config, votes: seq<Vote>, h: Hash) {
    forall i :: 0 <= i < |votes| ==> Genuine(cfg, votes[i]) && votes[i].headerDigest == h
  }

  // Everything about headers other than h is as before.
  ghost predicate OthersSame(a: map<Hash, Pending>, b: map<Hash, Pending>, h: Hash) {
    forall x :: x != h ==> ((x in a <==> x in b) && (x in a && x in b ==> a[x] == b[x]))
  }

  // h is being tracked, short of a quorum, with votes only from the given validators.
  ghost predicate Collecting(cfg: Config, t: Tracker, h: Hash, voters: set<nat>) {
    && h in t.pending && t.pending[h].votes.Keys <= voters && |t.pending[h].votes| < Needed(cfg)
    && GenuineVotes(cfg, t.pending[h].votes, h) && OwnHeader(cfg, t.pending[h].header)
  }

  // A quorum of genuine votes, all from the given validators.
  ghost predicate Complete(cfg: Config, p: Pending, h: Hash, voters: set<nat>) {
    && p.header.digest == h && OwnHeader(cfg, p.header) && p.votes.Keys <= voters && |p.votes| == Needed(cfg)
    && GenuineVotes(cfg, p.votes, h)
  }

  // What counting leaves behind: a complete header that is no longer tracked, or one still collecting.
  ghost predicate Counted(cfg: Config, t: Tracker, t': Tracker, formed: Option<Pending>, h: Hash, voters: set<nat>) {
    && Filed(t') && OthersRecorded(t, t', h) && OthersSame(t.pending, t'.pending, h)
    && (if formed.Some? then h !in t'.pending && Complete(cfg, formed.value, h, voters)
        else Collecting(cfg, t', h, voters))
  }

  // Recording a vote leaves the header's votes alone or adds the one vote.
  ghost function VotesAfter(t: Tracker, vote: Vote): map<nat, Vote>
    requires vote.headerDigest in t.pending
  {
    RecordSpec(t, vote).pending[vote.headerDigest].votes
  }

  lemma RecordVotes(t: Tracker, vote: Vote)
    requires vote.headerDigest in t.pending
    ensures var votes := t.pending[vote.headerDigest].votes;
      && VotesAfter(t, vote) ==
        (if Recorded(t, vote.validator, vote.headerDigest) || vote.validator in votes then votes else Cast(votes, vote))
      && OthersSame(t.pending, RecordSpec(t, vote).pending, vote.headerDigest)
      && RecordSpec(t, vote).pending[vote.headerDigest].header == t.pending[vote.headerDigest].header
  {}

  lemma CountKeeps(t: Tracker, vote: Vote, q: nat)
    requires Filed(t)
    ensures var t' := CountSpec(t, vote, q).0; Filed(t') && OthersRecorded(t, t', vote.headerDigest)
  {
    var t1 := RecordSpec(t, vote);
    RecordKeepsFiled(t, vote);
    RemoveKeepsFiled(t1, vote.headerDigest);
    RecordIsLocal(t, vote);
    RemoveIsLocal(t1, vote.headerDigest);
  }

  lemma CastKeys(votes: map<nat, Vote>, vote: Vote)
    ensures Cast(votes, vote).Keys == votes.Keys + {vote.validator} && |Cast(votes, vote)| <= |votes| + 1
  {
    assert Cast(votes, vote).Keys == votes.Keys + {vote.validator};
    if vote.validator in votes {
      assert votes.Keys + {vote.validator} == votes.Keys;
    }
  }

  lemma CastGenuine(cfg: Config, votes: map<nat, Vote>, vote: Vote)
    requires GenuineVotes(cfg, votes, vote.headerDigest) && Genuine(cfg, vote)
    ensures GenuineVotes(cfg, Cast(votes, vote), vote.headerDigest)
  {}

  lemma CountOne(cfg: Config, t: Tracker, vote: Vote, voters: set<nat>)
    requires Filed(t) && Genuine(cfg, vote) && Collecting(cfg, t, vote.headerDigest, voters)
    ensures var (t', formed) := CountSpec(t, vote, Needed(cfg));
      Counted(cfg, t, t', formed, vote.headerDigest, voters + {vote.validator})
  {
    CountKeeps(t, vote, Needed(cfg));
    RecordVotes(t, vote);
    CastKeys(t.pending[vote.headerDigest].votes, vote);
    CastGenuine(cfg, t.pending[vote.headerDigest].votes, vote);
    CountedOne(cfg, t, RecordSpec(t, vote), vote, voters);
  }

  lemma CountedOne(cfg: Config, t: Tracker, t1: Tracker, vote: Vote, voters: set<nat>)
    requires Filed(t) && Collecting(cfg, t, vote.headerDigest, voters)
    requires t1 == RecordSpec(t, vote) && vote.headerDigest in t1.pending
    requires OthersSame(t.pending, t1.pending, vote.headerDigest)
    requires t1.pending[vote.headerDigest].header == t.pending[vote.headerDigest].header
    requires var votes := t1.pending[vote.headerDigest].votes;
      && GenuineVotes(cfg, votes, vote.headerDigest) && votes.Keys <= voters + {vote.validator}
        && |votes| <= Needed(cfg)
    ensures var (t', formed) := CountSpec(t, vote, Needed(cfg));
      && OthersSame(t.pending, t'.pending, vote.headerDigest)
      && (if formed.Some? then
            vote.headerDigest !in t'.pending
            && Complete(cfg, formed.value, vote.headerDigest, voters + {vote.validator})
          else Collecting(cfg, t', vote.headerDigest, voters + {vote.validator}))
  {}

  lemma {:induction false} CountAll(cfg: Config, t: Tracker, votes: seq<Vote>, h: Hash, voters: set<nat>)
    requires Filed(t) && Collecting(cfg, t, h, voters) && AllFor(cfg, votes, h)
    ensures var (t', formed) := CountAllSpec(t, votes, Needed(cfg));
      Counted(cfg, t, t', formed, h, voters + Voters(votes))
    decreases |votes|
  {
    if votes == [] {
      assert voters + Voters(votes) == voters;
    } else {
      CountOne(cfg, t, votes[0], voters);
      VotersSplit(votes);
      assert voters + Voters(votes) == voters + {votes[0].validator} + Voters(votes[1..]);
      var (t1, formed) := CountSpec(t, votes[0], Needed(cfg));
      if formed.None? {
        CountAll(cfg, t1, votes[1..], h, voters + {votes[0].validator});
      }
    }
  }

  // Votes for a header that is not tracked change nothing.
  lemma {:induction false} CountAllIdle(t: Tracker, votes: seq<Vote>, h: Hash, q: nat)
    requires h !in t.pending && forall i :: 0 <= i < |votes| ==> votes[i].headerDigest == h
    ensures CountAllSpec(t, votes, q) == (t, None)
    decreases |votes|
  {
    if votes != [] {
      CountAllIdle(t, votes[1..], h, q);
    }
  }

  // ---- The invariants of a run -------------------------------------------------------------------

  // For header d, given whether it was created and who supports it: buffered votes are genuine,
  // and a tracked header is short of a quorum and not certified.
  ghost predicate Sound(cfg: Config, s: VotingState, certs: seq<Pending>, d: Hash, made: bool, voters: set<nat>) {
    && AllFor(cfg, Buffered(s.early, d), d) && Voters(Buffered(s.early, d)) <= voters
    && (d in s.tracker.pending ==> made && Collecting(cfg, s.tracker, d, voters) && !Certified(certs, d))
    && (Certified(certs, d) ==> made)
  }

  // An event about header h leaves every other header alone.
  ghost predicate Local(s: VotingState, s': VotingState, out: seq<Pending>, h: Hash) {
    && OthersSame(s.tracker.pending, s'.tracker.pending, h) && OthersRecorded(s.tracker, s'.tracker, h) && |out| <= 1
    && (forall x :: x != h ==> Buffered(s.early, x) == Buffered(s'.early, x))
    && (out != [] ==> out[0].header.digest == h)
  }

  lemma CertifiedSnoc(certs: seq<Pending>, out: seq<Pending>, h: Hash, d: Hash)
    requires |out| <= 1 && (out != [] ==> out[0].header.digest == h)
    ensures Certified(certs + out, d) <==> Certified(certs, d) || (out != [] && d == h)
  {
    if Certified(certs, d) {
      var i :| 0 <= i < |certs| && certs[i].header.digest == d;
      assert (certs + out)[i] == certs[i];
    }
    if out != [] && d == h {
      assert (certs + out)[|certs|] == out[0];
    }
  }

  lemma OthersKept(cfg: Config, s: VotingState, s': VotingState, certs: seq<Pending>, out: seq<Pending>, h: Hash,
                   d: Hash, made: bool, voters: set<nat>)
    requires Local(s, s', out, h) && d != h && Sound(cfg, s, certs, d, made, voters)
    ensures Sound(cfg, s', certs + out, d, made, voters)
  {
    CertifiedSnoc(certs, out, h, d);
  }

  // A vote for h.
  lemma VoteKept(cfg: Config, s: VotingState, certs: seq<Pending>, vote: Vote, made: bool, voters: set<nat>)
    requires Filed(s.tracker) && Sound(cfg, s, certs, vote.headerDigest, made, voters)
    ensures var (s', formed) := VoteSpec(cfg, s, vote);
      var more := voters + Support(cfg, VoteMsg(vote), vote.headerDigest);
      && Local(s, s', Listed(formed), vote.headerDigest) && Filed(s'.tracker)
      && (formed.Some? ==> !Certified(certs, vote.headerDigest) && Complete(cfg, formed.value, vote.headerDigest, more))
      && Sound(cfg, s', certs + Listed(formed), vote.headerDigest, made, more)
  {
    var h := vote.headerDigest;
    var (s', formed) := VoteSpec(cfg, s, vote);
    CertifiedSnoc(certs, [], h, h);
    if !Genuine(cfg, vote) {
      assert voters + {} == voters;
    } else if h !in s.tracker.pending {
      assert Voters(Buffered(s'.early, h)) == Voters(Buffered(s.early, h)) + {vote.validator};
    } else {
      CountOne(cfg, s.tracker, vote, voters);
      CertifiedSnoc(certs, Listed(formed), h, h);
    }
  }

  // What creating header h does: it is complete, or collects from its supporters.
  ghost predicate Made(cfg: Config, s: VotingState, s': VotingState, out: seq<Pending>, h: Hash, voters: set<nat>) {
    && Filed(s'.tracker) && Local(s, s', out, h) && Buffered(s'.early, h) == []
    && (if out != [] then h !in s'.tracker.pending && Complete(cfg, out[0], h, voters)
      else Collecting(cfg, s'.tracker, h, voters))
  }

  lemma TrackCollects(cfg: Config, t: Tracker, h: Header, voters: set<nat>)
    requires Filed(t) && h.digest !in t.pending && OwnHeader(cfg, h)
    ensures var t0 := TrackSpec(t, h);
      && Filed(t0) && OthersRecorded(t, t0, h.digest) && OthersSame(t.pending, t0.pending, h.digest)
      && Collecting(cfg, t0, h.digest, voters) && t0.pending[h.digest].votes == map[]
  {
    TrackKeeps(t, h);
  }

  lemma CountedThen(cfg: Config, t: Tracker, t1: Tracker, t2: Tracker, formed: Option<Pending>, h: Hash, a: set<nat>,
                    b: set<nat>)
    requires Counted(cfg, t, t1, None, h, a) && Counted(cfg, t1, t2, formed, h, b)
    ensures Counted(cfg, t, t2, formed, h, b)
  {}

  // The author's own vote, then the buffered ones.
  lemma CountOwn(cfg: Config, t: Tracker, vote: Vote, early: seq<Vote>, voters: set<nat>)
    requires Filed(t) && Genuine(cfg, vote) && Collecting(cfg, t, vote.headerDigest, voters)
    requires AllFor(cfg, early, vote.headerDigest) && Voters(early) <= voters
    ensures var (t1, own) := CountSpec(t, vote, Needed(cfg));
      var (t2, formed) := CountAllSpec(t1, early, Needed(cfg));
      && (own.Some? ==> formed.None?)
      && Counted(cfg, t, t2, if own.Some? then own else formed, vote.headerDigest, voters + {vote.validator})
  {
    CountOne(cfg, t, vote, voters);
    var (t1, own) := CountSpec(t, vote, Needed(cfg));
    CountRest(cfg, t, t1, own, early, vote.headerDigest, voters + {vote.validator});
  }

  lemma CountRest(cfg: Config, t: Tracker, t1: Tracker, own: Option<Pending>, early: seq<Vote>, h: Hash,
                  voters: set<nat>)
    requires Counted(cfg, t, t1, own, h, voters) && AllFor(cfg, early, h) && Voters(early) <= voters
    ensures var (t2, formed) := CountAllSpec(t1, early, Needed(cfg));
      && (own.Some? ==> formed.None?)
      && Counted(cfg, t, t2, if own.Some? then own else formed, h, voters)
  {
    if own.Some? {
      CountAllIdle(t1, early, h, Needed(cfg));
    } else {
      CountAll(cfg, t1, early, h, voters);
      assert voters + Voters(early) == voters;
      var (t2, formed) := CountAllSpec(t1, early, Needed(cfg));
      CountedThen(cfg, t, t1, t2, formed, h, voters, voters);
    }
  }

  lemma CreateMakes(cfg: Config, s: VotingState, h: Header, nonce: nat, voters: set<nat>)
    requires Filed(s.tracker) && h.digest !in s.tracker.pending && OwnHeader(cfg, h) && cfg.self in cfg.validators
    requires AllFor(cfg, Buffered(s.early, h.digest), h.digest) && Voters(Buffered(s.early, h.digest)) <= voters
    ensures var (s', own, formed) := CreateSpec(cfg, s, h, nonce);
      Made(cfg, s, s', Listed(own) + Listed(formed), h.digest, voters + {cfg.self})
  {
    var t0, vote, early := TrackSpec(s.tracker, h), SelfVote(cfg.self, h.digest, nonce), Buffered(s.early, h.digest);
    TrackCollects(cfg, s.tracker, h, voters);
    CountOwn(cfg, t0, vote, early, voters);
    var (t1, own) := CountSpec(t0, vote, Needed(cfg));
    var (t2, formed) := CountAllSpec(t1, early, Needed(cfg));
    CountedMakes(cfg, s, t0, t2, own, formed, h.digest, voters + {cfg.self});
  }

  lemma CountedMakes(cfg: Config, s: VotingState, t0: Tracker, t2: Tracker, own: Option<Pending>,
                     formed: Option<Pending>, h: Hash, voters: set<nat>)
    requires OthersSame(s.tracker.pending, t0.pending, h) && OthersRecorded(s.tracker, t0, h)
    requires own.Some? ==> formed.None?
    requires Counted(cfg, t0, t2, if own.Some? then own else formed, h, voters)
    ensures Made(cfg, s, VotingState(t2, s.early - {h}), Listed(own) + Listed(formed), h, voters)
  {
    assert Listed(own) + Listed(formed) == Listed(if own.Some? then own else formed);
  }

  // Creating h for the first time keeps what is known of it.
  lemma CreateKept(cfg: Config, s: VotingState, s': VotingState, certs: seq<Pending>, out: seq<Pending>, h: Hash,
                   voters: set<nat>)
    requires Made(cfg, s, s', out, h, voters) && !Certified(certs, h)
    ensures Sound(cfg, s', certs + out, h, true, voters)
  {
    CertifiedSnoc(certs, out, h, h);
  }

  // ---- Whole runs ---------------------------------------------------------------------------------

  ghost predicate Inv(cfg: Config, es: seq<Event>, s: VotingState, certs: seq<Pending>) {
    && Filed(s.tracker) && AtMostOnce(certs) && AllComplete(cfg, es, certs)
    && forall d :: Sound(cfg, s, certs, d, Created(es, d), Supporters(cfg, es, d))
  }

  ghost predicate AllComplete(cfg: Config, es: seq<Event>, certs: seq<Pending>) {
    forall i :: 0 <= i < |certs| ==>
      Complete(cfg, certs[i], certs[i].header.digest, Supporters(cfg, es, certs[i].header.digest))
  }

  // The header an event is about.
  ghost function Subject(e: Event): Hash
    requires !e.Cleanup?
  {
    if e.VoteMsg? then e.vote.headerDigest else e.header.digest
  }

  lemma CreatedSnoc(es: seq<Event>, d: Hash)
    requires es != []
    ensures Created(es, d) <==> Created(es[..|es| - 1], d) || Creates(es[|es| - 1], d)
  {
    var before := es[..|es| - 1];
    if Created(before, d) {
      var i :| 0 <= i < |before| && Creates(before[i], d);
      assert es[i] == before[i];
    }
    if Created(es, d) && !Creates(es[|es| - 1], d) {
      var i :| 0 <= i < |es| && Creates(es[i], d);
      assert es[i] == before[i];
    }
  }

  // An event leaves the record of headers it is not about.
  lemma RecordSnoc(cfg: Config, es: seq<Event>, d: Hash)
    requires es != [] && (es[|es| - 1].Cleanup? || Subject(es[|es| - 1]) != d)
    ensures Created(es, d) == Created(es[..|es| - 1], d)
    ensures Supporters(cfg, es, d) == Supporters(cfg, es[..|es| - 1], d)
  {
    CreatedSnoc(es, d);
    assert Supporters(cfg, es[..|es| - 1], d) + {} == Supporters(cfg, es[..|es| - 1], d);
  }

  // A header created in a proper run was not created before.
  lemma CreatedOnce(cfg: Config, es: seq<Event>)
    requires es != [] && Proper(cfg, es) && es[|es| - 1].Create?
    ensures !Created(es[..|es| - 1], es[|es| - 1].header.digest) && OwnHeader(cfg, es[|es| - 1].header)
  {}

  lemma CompleteGrows(cfg: Config, es: seq<Event>, certs: seq<Pending>)
    requires es != [] && AllComplete(cfg, es[..|es| - 1], certs)
    ensures AllComplete(cfg, es, certs)
  {}

  lemma OnceMore(certs: seq<Pending>, out: seq<Pending>, h: Hash)
    requires AtMostOnce(certs) && |out| <= 1 && (out != [] ==> out[0].header.digest == h && !Certified(certs, h))
    ensures AtMostOnce(certs + out)
  {
    forall i, j | 0 <= i < j < |certs + out| ensures (certs + out)[i].header.digest != (certs + out)[j].header.digest {
      if j == |certs| {
        assert certs[i].header.digest != h;
      }
    }
  }

  // What an event about h must establish, for h itself.
  ghost predicate Handled(cfg: Config, es: seq<Event>, s: VotingState, s': VotingState, certs: seq<Pending>,
                          out: seq<Pending>, h: Hash) {
    && Local(s, s', out, h) && Filed(s'.tracker)
    && (out != [] ==> !Certified(certs, h) && Complete(cfg, out[0], h, Supporters(cfg, es, h)))
    && Sound(cfg, s', certs + out, h, Created(es, h), Supporters(cfg, es, h))
  }

  lemma EventHandled(cfg: Config, es: seq<Event>, s: VotingState, certs: seq<Pending>)
    requires es != [] && Proper(cfg, es) && !es[|es| - 1].Cleanup? && Inv(cfg, es[..|es| - 1], s, certs)
    ensures var (s', out) := Step(cfg, s, es[|es| - 1]);
      Handled(cfg, es, s, s', certs, out, Subject(es[|es| - 1]))
  {
    var before, e := es[..|es| - 1], es[|es| - 1];
    var h := Subject(e);
    CreatedSnoc(es, h);
    assert Sound(cfg, s, certs, h, Created(before, h), Supporters(cfg, before, h));
    if e.VoteMsg? {
      VoteKept(cfg, s, certs, e.vote, Created(before, h), Supporters(cfg, before, h));
    } else {
      CreatedOnce(cfg, es);
      CreateMakes(cfg, s, e.header, e.nonce, Supporters(cfg, before, h));
      var (s', out) := Step(cfg, s, e);
      CreateKept(cfg, s, s', certs, out, h, Supporters(cfg, es, h));
    }
  }

  lemma HandledKeeps(cfg: Config, es: seq<Event>, s: VotingState, s': VotingState, certs: seq<Pending>,
                     out: seq<Pending>)
    requires es != [] && !es[|es| - 1].Cleanup? && Inv(cfg, es[..|es| - 1], s, certs)
    requires Handled(cfg, es, s, s', certs, out, Subject(es[|es| - 1]))
    ensures Inv(cfg, es, s', certs + out)
  {
    var h := Subject(es[|es| - 1]);
    CompleteMore(cfg, es, certs, out, h);
    OnceMore(certs, out, h);
    forall d ensures Sound(cfg, s', certs + out, d, Created(es, d), Supporters(cfg, es, d)) {
      if d != h {
        assert Sound(cfg, s, certs, d, Created(es[..|es| - 1], d), Supporters(cfg, es[..|es| - 1], d));
        SoundElsewhere(cfg, es, s, s', certs, out, d);
      }
    }
  }

  lemma SoundElsewhere(cfg: Config, es: seq<Event>, s: VotingState, s': VotingState, certs: seq<Pending>,
                       out: seq<Pending>, d: Hash)
    requires es != [] && !es[|es| - 1].Cleanup? && d != Subject(es[|es| - 1])
      && Local(s, s', out, Subject(es[|es| - 1]))
    requires Sound(cfg, s, certs, d, Created(es[..|es| - 1], d), Supporters(cfg, es[..|es| - 1], d))
    ensures Sound(cfg, s', certs + out, d, Created(es, d), Supporters(cfg, es, d))
  {
    RecordSnoc(cfg, es, d);
    OthersKept(cfg, s, s', certs, out, Subject(es[|es| - 1]), d, Created(es, d), Supporters(cfg, es, d));
  }

  lemma CompleteMore(cfg: Config, es: seq<Event>, certs: seq<Pending>, out: seq<Pending>, h: Hash)
    requires es != [] && AllComplete(cfg, es[..|es| - 1], certs) && |out| <= 1
    requires out != [] ==> Complete(cfg, out[0], h, Supporters(cfg, es, h))
    ensures AllComplete(cfg, es, certs + out)
  {
    CompleteGrows(cfg, es, certs);
    AppendComplete(cfg, es, certs, out);
  }

  lemma AppendComplete(cfg: Config, es: seq<Event>, certs: seq<Pending>, out: seq<Pending>)
    requires AllComplete(cfg, es, certs) && |out| <= 1
    requires out != [] ==> Complete(cfg, out[0], out[0].header.digest, Supporters(cfg, es, out[0].header.digest))
    ensures AllComplete(cfg, es, certs + out)
  {
    forall i | 0 <= i < |certs + out|
      ensures Complete(cfg, (certs + out)[i], (certs + out)[i].header.digest,
        Supporters(cfg, es, (certs + out)[i].header.digest))
    {
      assert (certs + out)[i] == if i < |certs| then certs[i] else out[0];
    }
  }

  lemma CleanupKeeps(cfg: Config, es: seq<Event>, s: VotingState, certs: seq<Pending>)
    requires es != [] && es[|es| - 1].Cleanup? && Inv(cfg, es[..|es| - 1], s, certs)
    ensures var (s', out) := Step(cfg, s, es[|es| - 1]); Inv(cfg, es, s', certs + out)
  {
    var (s', out) := Step(cfg, s, es[|es| - 1]);
    assert certs + out == certs;
    TimeOutKeepsFiled(s.tracker, es[|es| - 1].timedOut);
    CompleteGrows(cfg, es, certs);
    forall d ensures Sound(cfg, s', certs, d, Created(es, d), Supporters(cfg, es, d)) {
      RecordSnoc(cfg, es, d);
      assert Sound(cfg, s, certs, d, Created(es, d), Supporters(cfg, es, d));
    }
  }

  // Every run, cleanup included.
  lemma {:induction false} RunKeepsInv(cfg: Config, es: seq<Event>)
    requires Proper(cfg, es)
    ensures var (s, certs) := Run(cfg, es); Inv(cfg, es, s, certs)
    decreases |es|
  {
    if es != [] {
      RunKeepsInv(cfg, es[..|es| - 1]);
      var (s, certs) := Run(cfg, es[..|es| - 1]);
      if es[|es| - 1].Cleanup? {
        CleanupKeeps(cfg, es, s, certs);
      } else {
        EventHandled(cfg, es, s, certs);
        var (s', out) := Step(cfg, s, es[|es| - 1]);
        HandledKeeps(cfg, es, s, s', certs, out);
      }
    }
  }

  // ---- The main results -----------------------------------------------------------------------------

  // Any certificate formed from a complete header holds exactly a quorum of votes in strictly
  // increasing validator order, all from its supporters, and verifies.
  lemma CompleteVerifies(cfg: Config, p: Pending, h: Hash, voters: set<nat>, cert: Certificate)
    requires Complete(cfg, p, h, voters) && CertifiedBy(p, Needed(cfg), cert) && cfg.self in cfg.validators
    ensures Verifies(cert, cfg.validators) && |cert.votes| == Needed(cfg) && cert.Digest() == h
    ensures Voters(cert.votes) == p.votes.Keys && Voters(cert.votes) <= voters
  {
    AllCollected(p, Needed(cfg), cert);
  }

  // Exactly enough votes: the certificate holds them all.
  lemma AllCollected(p: Pending, q: nat, cert: Certificate)
    requires CertifiedBy(p, q, cert) && |p.votes| == q
    ensures Voters(cert.votes) == p.votes.Keys
  {
    VotersCount(cert.votes);
    assert forall v :: v in Voters(cert.votes) ==> v in p.votes.Keys;
    SameSize(Voters(cert.votes), p.votes.Keys);
  }

  // In every run, cleanup included: a header gets at most one certificate, only after it was
  // created and a quorum of distinct validators supported it, and that certificate verifies.
  lemma CertificatesAreEarned(cfg: Config, es: seq<Event>, cert: Certificate, i: nat)
    requires Proper(cfg, es)
    requires var certs := Run(cfg, es).1; i < |certs| && CertifiedBy(certs[i], Needed(cfg), cert)
    ensures AtMostOnce(Run(cfg, es).1)
    ensures Verifies(cert, cfg.validators) && |cert.votes| == Needed(cfg)
    ensures Created(es, cert.Digest()) && Voters(cert.votes) <= Supporters(cfg, es, cert.Digest())
    ensures |Supporters(cfg, es, cert.Digest())| >= Needed(cfg)
  {
    RunKeepsInv(cfg, es);
    var (s, certs) := Run(cfg, es);
    var d := certs[i].header.digest;
    var voters := Supporters(cfg, es, d);
    assert Complete(cfg, certs[i], d, voters);
    CompleteVerifies(cfg, certs[i], d, voters, cert);
    assert Certified(certs, d);
    assert Sound(cfg, s, certs, d, Created(es, d), voters);
    CardMono(certs[i].votes.Keys, voters);
    assert |certs[i].votes| == |certs[i].votes.Keys|;
  }

  lemma {:induction false} SupportersMeaning(cfg: Config, es: seq<Event>, d: Hash, v: nat)
    ensures v in Supporters(cfg, es, d) <==> exists e :: e in es && v in Support(cfg, e, d)
    decreases |es|
  {
    if es != [] {
      var before := es[..|es| - 1];
      SupportersMeaning(cfg, before, d, v);
      assert es == before + [es[|es| - 1]];
    }
  }
}
