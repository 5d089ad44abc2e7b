// The vote tracker and the primary's vote handling, as programs.
module VotingImpl {
  import opened Types
  import opened Lists
  import opened Quorum
  import opened Votes
  import opened Voting

  class VoteTracker {
    var pending: map<Hash, Pending>
    var byValidator: map<nat, map<Hash, Vote>>
    var evidence: seq<Evidence>

    ghost function State(): Tracker
      reads this
    {
      Tracker(pending, byValidator, evidence)
    }

    constructor ()
      ensures State() == Tracker(map[], map[], [])
    {
      pending, byValidator, evidence := map[], map[], [];
    }

    method TrackHeader(header: Header)
      modifies this
      ensures State() == TrackSpec(old(State()), header)
    {
      if header.digest !in pending {
        pending := pending[header.digest := Pending(header, map[])];
      }
    }

    // The vote is recorded once per validator and header; a certificate comes back exactly when
    // the header then has a quorum of votes.
    method RecordVote(vote: Vote, quorum: nat) returns (cert: Option<Certificate>)
      requires Filed(State())
      modifies this
      ensures State() == RecordSpec(old(State()), vote)
      ensures cert.Some? <==> FormedBy(old(State()), vote, quorum).Some?
      ensures cert.Some? ==> CertifiedBy(FormedBy(old(State()), vote, quorum).value, quorum, cert.value)
    {
      cert := None;
      if vote.headerDigest !in pending {
        return;
      }
      RecordKeepsFiled(State(), vote);
      Record(vote);
      cert := WithQuorum(pending[vote.headerDigest], quorum);
    }

    // File the vote of a tracked header, or note that the validator signed twice.
    method Record(vote: Vote)
      requires vote.headerDigest in pending
      modifies this
      ensures State() == RecordSpec(old(State()), vote)
    {
      var h, v := vote.headerDigest, vote.validator;
      if v in byValidator {
        if h in byValidator[v] {
          if byValidator[v][h].signature != vote.signature {
            evidence := evidence + [Evidence(byValidator[v][h], vote)];
          }
          return;
        }
      } else {
        byValidator := byValidator[v := map[]];
      }
      if v in pending[h].votes {
        return;
      }
      pending := pending[h := Pending(pending[h].header, pending[h].votes[v := vote])];
      byValidator := byValidator[v := byValidator[v][h := vote]];
    }

    method RemoveHeader(h: Hash)
      modifies this
      ensures State() == RemoveSpec(old(State()), h)
    {
      var left := byValidator.Keys;
      while left != {}
        invariant left <= byValidator.Keys && pending == old(pending) && evidence == old(evidence)
        invariant forall v :: v in left ==> v in old(byValidator) && byValidator[v] == old(byValidator)[v]
        invariant forall v :: v in old(byValidator).Keys - left ==>
          (v in byValidator <==> v in Dropped(old(byValidator), h))
            && (v in byValidator ==> byValidator[v] == Dropped(old(byValidator), h)[v])
        invariant byValidator.Keys <= old(byValidator).Keys
        decreases left
      {
        var v := Pick(left);
        var votes := byValidator[v] - {h};
        if votes == map[] {
          byValidator := byValidator - {v};
        } else {
          byValidator := byValidator[v := votes];
        }
        left := left - {v};
      }
      assert byValidator == Dropped(old(byValidator), h);
      pending := pending - {h};
    }

    // Given the headers whose age exceeds the timeout.
    method RemoveTimedOut(expired: set<Hash>) returns (out: seq<Header>)
      modifies this
      ensures State() == TimeOutSpec(old(State()), expired)
      ensures Elems(out) == set h | h in old(pending) && h in expired :: old(pending)[h].header
    {
      out := [];
      var left := pending.Keys;
      while left != {}
        invariant left <= pending.Keys && byValidator == old(byValidator) && evidence == old(evidence)
        invariant pending == old(pending) - (expired - left)
        invariant forall x :: x in out <==>
          exists h :: h in old(pending) && h in expired - left && old(pending)[h].header == x
        decreases left
      {
        var h := Pick(left);
        if h in expired {
          out := out + [pending[h].header];
          pending := pending - {h};
        }
        left := left - {h};
      }
    }
  }

  method WithQuorum(p: Pending, quorum: nat) returns (cert: Option<Certificate>)
    requires forall v :: v in p.votes ==> p.votes[v].validator == v
    ensures cert.Some? <==> |p.votes| >= quorum
    ensures cert.Some? ==> CertifiedBy(p, quorum, cert.value)
  {
    cert := None;
    if |p.votes| >= quorum {
      var c := FormCertificate(p, quorum);
      cert := Some(c);
    }
  }

  // Up to a quorum of the header's votes, in whatever order the map yields them.
  method FormCertificate(p: Pending, quorum: nat) returns (cert: Certificate)
    requires forall v :: v in p.votes ==> p.votes[v].validator == v
    ensures CertifiedBy(p, quorum, cert)
  {
    var votes: seq<Vote> := [];
    var left := p.votes.Keys;
    while left != {} && |votes| < quorum
      invariant left <= p.votes.Keys && |votes| <= quorum && |votes| + |left| == |p.votes|
      invariant forall i :: 0 <= i < |votes| ==>
        votes[i].validator in p.votes && votes[i].validator !in left && p.votes[votes[i].validator] == votes[i]
      invariant forall i, j :: 0 <= i < j < |votes| ==> votes[i].validator != votes[j].validator
      decreases left
    {
      var v := Pick(left);
      votes := votes + [p.votes[v]];
      left := left - {v};
    }
    cert := NewCertificate(p.header, votes);
    assert forall vote :: vote in cert.votes ==> vote in Elems(votes);
  }

  // The votes in validator order.
  method NewCertificate(header: Header, votes: seq<Vote>) returns (cert: Certificate)
    requires forall i, j :: 0 <= i < j < |votes| ==> votes[i].validator != votes[j].validator
    ensures cert.header == header && ByValidator(cert.votes) && |cert.votes| == |votes|
      && Elems(cert.votes) == Elems(votes)
  {
    var out: seq<Vote> := [];
    for i := 0 to |votes|
      invariant ByValidator(out) && |out| == i && Elems(out) == Elems(votes[..i])
    {
      var k := 0;
      while k < |out| && out[k].validator < votes[i].validator
        invariant 0 <= k <= |out|
        invariant forall j :: 0 <= j < k ==> out[j].validator < votes[i].validator
      {
        k := k + 1;
      }
      assert votes[..i + 1] == votes[..i] + [votes[i]];
      ElemsAppend(votes[..i], [votes[i]]);
      assert forall j :: 0 <= j < |out| ==> out[j] in Elems(votes[..i]);
      assert forall j :: 0 <= j < |out| ==> out[j].validator != votes[i].validator;
      InsertVote(out, votes[i], k);
      out := out[..k] + [votes[i]] + out[k..];
    }
    assert votes[..|votes|] == votes;
    cert := Certificate(header, out);
  }

  lemma InsertVote(out: seq<Vote>, vote: Vote, k: nat)
    requires ByValidator(out) && k <= |out|
    requires forall j :: 0 <= j < k ==> out[j].validator < vote.validator
    requires k < |out| ==> vote.validator < out[k].validator
    ensures var out' := out[..k] + [vote] + out[k..]; ByValidator(out') && Elems(out') == Elems(out) + {vote}
  {
    assert out == out[..k] + out[k..];
    ElemsAppend(out[..k], out[k..]);
    ElemsAppend(out[..k], [vote]);
    ElemsAppend(out[..k] + [vote], out[k..]);
  }

  // The part of the primary that turns votes into certificates.
  class VoteCollector {
    const self: nat
    const validators: set<nat>
    const tracker: VoteTracker
    var early: map<Hash, seq<Vote>>

    ghost function Cfg(): Config {
      Config(self, validators)
    }

    ghost function State(): VotingState
      reads this, tracker
    {
      VotingState(tracker.State(), early)
    }

    constructor (self: nat, validators: set<nat>)
      ensures fresh(tracker) && State() == VotingState(Tracker(map[], map[], []), map[])
        && Cfg() == Config(self, validators)
    {
      this.self, this.validators, early := self, validators, map[];
      tracker := new VoteTracker();
    }

    // A certificate for the header formed says, or none.
    ghost predicate Yields(cert: Option<Certificate>, formed: Option<Pending>) {
      && (cert.Some? <==> formed.Some?)
      && (cert.Some? ==> CertifiedBy(formed.value, Needed(Cfg()), cert.value))
    }

    method Count(vote: Vote) returns (cert: Option<Certificate>)
      requires Filed(tracker.State())
      modifies tracker
      ensures tracker.State() == CountSpec(old(tracker.State()), vote, Needed(Cfg())).0 && Filed(tracker.State())
      ensures Yields(cert, CountSpec(old(tracker.State()), vote, Needed(Cfg())).1)
    {
      CountKeeps(tracker.State(), vote, Needed(Cfg()));
      cert := tracker.RecordVote(vote, QuorumSize(|validators|));
      if cert.Some? {
        tracker.RemoveHeader(vote.headerDigest);
      }
    }

    method HandleVote(vote: Vote) returns (cert: Option<Certificate>)
      requires Filed(tracker.State())
      modifies this, tracker
      ensures State() == VoteSpec(Cfg(), old(State()), vote).0 && Filed(tracker.State())
      ensures Yields(cert, VoteSpec(Cfg(), old(State()), vote).1)
    {
      cert := None;
      if vote.validator !in validators || !Signed(vote.signature, vote.validator, vote.headerDigest) {
        return;
      }
      if vote.headerDigest !in tracker.pending {
        var entry := if vote.headerDigest in early then early[vote.headerDigest] else [];
        early := early[vote.headerDigest := entry + [vote]];
        return;
      }
      cert := Count(vote);
    }

    // A new header: track it, vote for it, then count the votes that came early.
    method HandleCreated(header: Header, nonce: nat) returns (own: Option<Certificate>, cert: Option<Certificate>)
      requires Filed(tracker.State())
      modifies this, tracker
      ensures State() == CreateSpec(Cfg(), old(State()), header, nonce).0 && Filed(tracker.State())
      ensures Yields(own, CreateSpec(Cfg(), old(State()), header, nonce).1)
      ensures Yields(cert, CreateSpec(Cfg(), old(State()), header, nonce).2)
    {
      TrackKeeps(tracker.State(), header);
      tracker.TrackHeader(header);
      own := Count(SelfVote(self, header.digest, nonce));
      cert := ProcessPendingVotes(header.digest);
    }

    method ProcessPendingVotes(h: Hash) returns (cert: Option<Certificate>)
      requires Filed(tracker.State())
      modifies this, tracker
      ensures early == old(early) - {h} && Filed(tracker.State())
      ensures tracker.State() == CountAllSpec(old(tracker.State()), Buffered(old(early), h), Needed(Cfg())).0
      ensures Yields(cert, CountAllSpec(old(tracker.State()), Buffered(old(early), h), Needed(Cfg())).1)
    {
      var votes := if h in early then early[h] else [];
      early := early - {h};
      cert := None;
      ghost var all := CountAllSpec(tracker.State(), votes, Needed(Cfg()));
      for i := 0 to |votes|
        invariant early == old(early) - {h} && Filed(tracker.State()) && cert.None?
        invariant CountAllSpec(tracker.State(), votes[i..], Needed(Cfg())) == all
      {
        assert votes[i..][0] == votes[i] && votes[i..][1..] == votes[i + 1..];
        cert := Count(votes[i]);
        if cert.Some? {
          return;
        }
      }
    }

    // Given the headers whose votes, or which themselves, are too old.
    method CleanupPendingVotes(oldVotes: set<Hash>, timedOut: set<Hash>)
      modifies this, tracker
      ensures State() == CleanupSpec(old(State()), oldVotes, timedOut)
    {
      var left := early.Keys;
      while left != {}
        invariant left <= early.Keys && tracker.State() == old(tracker.State())
          && early == old(early) - (oldVotes - left)
        decreases left
      {
        var h := Pick(left);
        if h in oldVotes {
          early := early - {h};
        }
        left := left - {h};
      }
      var gone := tracker.RemoveTimedOut(timedOut);
    }
  }
}
