// Vote collection and certificate formation (primary/vote_tracker.go, and the vote handling of
// primary/primary.go).
module Votes {
  import opened Types
  import opened Quorum

  // A header collecting votes, by voter.
  datatype Pending = Pending(header: Header, votes: map<nat, Vote>)

  datatype Evidence = Evidence(vote1: Vote, vote2: Vote)

  datatype Tracker = Tracker(
    pending: map<Hash, Pending>, byValidator: map<nat, map<Hash, Vote>>, evidence: seq<Evidence>)

  // ---- Specification of the tracker -----------------------------------------------------------

  ghost function TrackSpec(t: Tracker, h: Header): Tracker {
    if h.digest in t.pending then t else t.(pending := t.pending[h.digest := Pending(h, map[])])
  }

  // The tracker already holds a vote of v for the header.
  ghost predicate Recorded(t: Tracker, v: nat, h: Hash) {
    v in t.byValidator && h in t.byValidator[v]
  }

  ghost function VotesOf(t: Tracker, v: nat): map<Hash, Vote> {
    if v in t.byValidator then t.byValidator[v] else map[]
  }

  ghost function Cast(votes: map<nat, Vote>, vote: Vote): map<nat, Vote> {
    votes[vote.validator := vote]
  }

  ghost function Note(votes: map<Hash, Vote>, vote: Vote): map<Hash, Vote> {
    votes[vote.headerDigest := vote]
  }

  ghost function RecordSpec(t: Tracker, vote: Vote): Tracker {
    var h, v := vote.headerDigest, vote.validator;
    if h !in t.pending then t
    else if Recorded(t, v, h) then
      var first := t.byValidator[v][h];
      if first.signature == vote.signature then t else t.(evidence := t.evidence + [Evidence(first, vote)])
    else if v in t.pending[h].votes then
      t.(byValidator := t.byValidator[v := VotesOf(t, v)])
    else
      Tracker(
        t.pending[h := Pending(t.pending[h].header, Cast(t.pending[h].votes, vote))],
        t.byValidator[v := Note(VotesOf(t, v), vote)],
        t.evidence)
  }

  // The header whose certificate this vote completes, with the votes it then has.
  ghost function FormedBy(t: Tracker, vote: Vote, quorum: nat): Option<Pending> {
    var h, t' := vote.headerDigest, RecordSpec(t, vote);
    if h in t.pending && |t'.pending[h].votes| >= quorum then Some(t'.pending[h]) else None
  }

  ghost function Dropped(byValidator: map<nat, map<Hash, Vote>>, h: Hash): map<nat, map<Hash, Vote>> {
    map v | v in byValidator && byValidator[v] - {h} != map[] :: byValidator[v] - {h}
  }

  ghost function RemoveSpec(t: Tracker, h: Hash): Tracker {
    Tracker(t.pending - {h}, Dropped(t.byValidator, h), t.evidence)
  }

  // Timed-out headers go, but the votes recorded for them per validator stay.
  ghost function TimeOutSpec(t: Tracker, expired: set<Hash>): Tracker {
    t.(pending := t.pending - expired)
  }

  // ---- Certificates -----------------------------------------------------------------------------

  ghost predicate ByValidator(votes: seq<Vote>) {
    forall i, j :: 0 <= i < j < |votes| ==> votes[i].validator < votes[j].validator
  }

  // A certificate for p: its header with a quorum of its votes, in strictly increasing
  // validator order.
  ghost predicate CertifiedBy(p: Pending, quorum: nat, cert: Certificate) {
    && cert.header == p.header && ByValidator(cert.votes)
    && (forall vote :: vote in cert.votes ==> vote.validator in p.votes && p.votes[vote.validator] == vote)
    && |cert.votes| == if |p.votes| < quorum then |p.votes| else quorum
  }

  lemma VotersSplit(votes: seq<Vote>)
    requires votes != []
    ensures Voters(votes) == {votes[0].validator} + Voters(votes[1..])
  {
    assert votes == [votes[0]] + votes[1..];
  }

  lemma {:induction false} VotersCount(votes: seq<Vote>)
    requires ByValidator(votes)
    ensures |Voters(votes)| == |votes|
    decreases |votes|
  {
    if votes != [] {
      VotersSplit(votes);
      VotersCount(votes[1..]);
      assert votes[0].validator !in Voters(votes[1..]);
    }
  }

  datatype VerifyResult = Verified | InsufficientQuorum | ValidatorNotFound | InvalidSignature | InvalidVote

  // A signature verifies only under the key of the validator that made it.
  predicate Signed(sig: Signature, signer: nat, message: Hash) {
    sig.signer == signer && sig.message == message
  }

  function VoteCheck(vote: Vote, header: Header, validators: set<nat>): VerifyResult {
    if vote.headerDigest != header.digest then InvalidVote
    else if vote.validator !in validators then ValidatorNotFound
    else if !Signed(vote.signature, vote.validator, vote.headerDigest) then InvalidSignature
    else Verified
  }

  // Verification: enough votes, a known author who signed the header, every vote good.
  ghost predicate Verifies(cert: Certificate, validators: set<nat>) {
    && |cert.votes| >= QuorumSize(|validators|)
    && cert.header.author in validators && Signed(cert.header.signature, cert.header.author, cert.header.digest)
    && forall vote :: vote in cert.votes ==> VoteCheck(vote, cert.header, validators) == Verified
  }

  method Verify(cert: Certificate, validators: set<nat>) returns (r: VerifyResult)
    ensures r == Verified <==> Verifies(cert, validators)
    ensures r == InsufficientQuorum <==> |cert.votes| < QuorumSize(|validators|)
    ensures r == InvalidVote ==> exists i :: 0 <= i < |cert.votes| && cert.votes[i].headerDigest != cert.header.digest
    ensures r == InvalidSignature ==>
      || (cert.header.author in validators && !Signed(cert.header.signature, cert.header.author, cert.header.digest))
      || exists i :: 0 <= i < |cert.votes| && !Signed(
        cert.votes[i].signature, cert.votes[i].validator, cert.votes[i].headerDigest)
    ensures r == ValidatorNotFound ==>
      cert.header.author !in validators || exists i :: 0 <= i < |cert.votes| && cert.votes[i].validator !in validators
  {
    if |cert.votes| < QuorumSize(|validators|) {
      return InsufficientQuorum;
    }
    if cert.header.author !in validators {
      return ValidatorNotFound;
    }
    if !Signed(cert.header.signature, cert.header.author, cert.header.digest) {
      return InvalidSignature;
    }
    for i := 0 to |cert.votes|
      invariant forall j :: 0 <= j < i ==> VoteCheck(cert.votes[j], cert.header, validators) == Verified
    {
      r := VoteCheck(cert.votes[i], cert.header, validators);
      if r != Verified {
        assert cert.votes[i] in cert.votes;
        return;
      }
    }
    return Verified;
  }

  // ---- The invariant of the tracker ---------------------------------------------------------------

  // Each collected vote is filed under its voter and its header, in both views.
  ghost predicate Filed(t: Tracker) {
    && (forall h, v :: h in t.pending && v in t.pending[h].votes ==>
          t.pending[h].votes[v].validator == v && t.pending[h].votes[v].headerDigest == h && Recorded(t, v, h))
    && (forall h :: h in t.pending ==> t.pending[h].header.digest == h)
  }

  lemma RecordKeepsFiled(t: Tracker, vote: Vote)
    requires Filed(t)
    ensures Filed(RecordSpec(t, vote))
  {}

  lemma RemoveRecorded(t: Tracker, h: Hash, v: nat, x: Hash)
    ensures Recorded(RemoveSpec(t, h), v, x) <==> Recorded(t, v, x) && x != h
  {
    if Recorded(t, v, x) && x != h {
      assert x in t.byValidator[v] - {h};
    }
  }

  lemma RemoveKeepsFiled(t: Tracker, h: Hash)
    requires Filed(t)
    ensures Filed(RemoveSpec(t, h))
  {
    forall x, v | x in t.pending && x != h && v in t.pending[x].votes ensures Recorded(RemoveSpec(t, h), v, x) {
      RemoveRecorded(t, h, v, x);
    }
  }

  lemma TrackKeeps(t: Tracker, h: Header)
    requires Filed(t)
    ensures Filed(TrackSpec(t, h))
  {}

  lemma TimeOutKeepsFiled(t: Tracker, expired: set<Hash>)
    requires Filed(t)
    ensures Filed(TimeOutSpec(t, expired))
  {}

  // The votes on record for headers other than h are as before.
  ghost predicate OthersRecorded(t: Tracker, t': Tracker, h: Hash) {
    forall v, x :: x != h ==> (Recorded(t, v, x) <==> Recorded(t', v, x))
  }

  lemma RecordIsLocal(t: Tracker, vote: Vote)
    ensures OthersRecorded(t, RecordSpec(t, vote), vote.headerDigest)
  {}

  lemma RemoveIsLocal(t: Tracker, h: Hash)
    ensures OthersRecorded(t, RemoveSpec(t, h), h)
  {
    forall v, x | x != h ensures Recorded(t, v, x) <==> Recorded(RemoveSpec(t, h), v, x) {
      RemoveRecorded(t, h, v, x);
    }
  }

  // The second duplicate check in RecordVote is dead code, timeouts included.
  lemma SecondDuplicateCheckUnreachable(t: Tracker, vote: Vote)
    requires Filed(t) && vote.headerDigest in t.pending && !Recorded(t, vote.validator, vote.headerDigest)
    ensures vote.validator !in t.pending[vote.headerDigest].votes
  {}
}
