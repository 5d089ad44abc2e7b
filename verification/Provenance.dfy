// Where headers come from (primary/primary.go): nobody can have a header of a correct validator voted
// for or certified that its author did not make.
module Provenance {
  import opened Types
  import opened Quorum
  import opened Protocol
  import Rounds
  import Votes

  // v made the header.
  ghost predicate WasMade(w: World, v: nat, h: Header) {
    exists s :: s in w.signings && s.Made? && s.validator == v && s.header == h
  }

  // A correct validator's signature over a header of its own means that it made the header.
  ghost predicate OwnSig(c: Setting, w: World, sig: Signature) {
    sig.signer !in c.faulty && sig.message in c.headers && c.headers[sig.message].author == sig.signer ==>
      WasMade(w, sig.signer, c.headers[sig.message])
  }

  ghost predicate AllOwn(c: Setting, w: World) {
    forall sig :: sig in w.sigs ==> OwnSig(c, w, sig)
  }

  lemma MadeStays(w: World, w': World, v: nat, h: Header)
    requires w.signings <= w'.signings && WasMade(w, v, h)
    ensures WasMade(w', v, h)
  {
    var s :| s in w.signings && s.Made? && s.validator == v && s.header == h;
    assert s in w'.signings;
  }

  // The signature of a header that validates is its author's.
  lemma ValidIsSigned(p: Rounds.Peer, h: Header)
    requires Rounds.ValidateSpec(p, h) == Rounds.Valid
    ensures h.signature.signer == h.author && h.signature.message == h.digest && h.author in p.validators
  {
    Rounds.ValidIff(p, h);
  }

  lemma NextKeepsOwn(c: Setting, w: World, a: Action)
    requires Inv(c, w) && AllOwn(c, w) && Enabled(c, w, a)
    ensures AllOwn(c, Next(c, w, a))
  {
    var w' := Next(c, w, a);
    NextGrows(c, w, a);
    forall sig | sig in w'.sigs ensures OwnSig(c, w', sig) {
      if sig in w.sigs {
        OldSig(c, w, w', sig);
      } else if a.VoteFor? {
        VotedSig(c, w, a);
      } else if a.MakeHeader? {
        assert Made(a.v, a.h, w.nodes[a.v]) in w'.signings;
      }
    }
  }

  lemma OldSig(c: Setting, w: World, w': World, sig: Signature)
    requires w.signings <= w'.signings && OwnSig(c, w, sig)
    ensures OwnSig(c, w', sig)
  {
    if sig.signer !in c.faulty && sig.message in c.headers && c.headers[sig.message].author == sig.signer {
      MadeStays(w, w', sig.signer, c.headers[sig.message]);
    }
  }

  // A validator that votes for a header of its own finds its own signature on it.
  lemma VotedSig(c: Setting, w: World, a: Action)
    requires Inv(c, w) && AllOwn(c, w) && a.VoteFor? && Enabled(c, w, a)
    ensures OwnSig(c, Next(c, w, a), Sig(a.v, a.h.digest, a.nonce))
  {
    ValidIsSigned(w.nodes[a.v].peer, a.h);
    if a.h.author == a.v {
      assert OwnSig(c, w, a.h.signature);
      assert a.v in w.nodes.Keys;
      MadeStays(w, Next(c, w, a), a.v, a.h);
    }
  }

  lemma {:induction false} RunKeepsOwn(c: Setting, ws: seq<World>, acts: seq<Action>, i: nat)
    requires IsRun(c, ws, acts) && i < |ws|
    ensures AllOwn(c, ws[i])
  {
    if i > 0 {
      var j := i - 1;
      RunKeepsOwn(c, ws, acts, j);
      RunKeepsInv(c, ws, acts, j);
      assert ws[j + 1] == Next(c, ws[j], acts[j]);
      NextKeepsOwn(c, ws[j], acts[j]);
    }
  }

  // The signatures of headers voted for stay known.
  ghost predicate AllVotedSigned(w: World) {
    forall s :: s in w.signings && s.Voted? ==> s.header.signature in w.sigs
  }

  lemma {:induction false} RunKeepsVotedSigned(c: Setting, ws: seq<World>, acts: seq<Action>, i: nat)
    requires IsRun(c, ws, acts) && i < |ws|
    ensures AllVotedSigned(ws[i])
  {
    if i > 0 {
      var j := i - 1;
      RunKeepsVotedSigned(c, ws, acts, j);
      assert Enabled(c, ws[j], acts[j]) && ws[j + 1] == Next(c, ws[j], acts[j]);
      assert ws[j].sigs <= ws[j + 1].sigs;
    }
  }

  // In every run a correct validator votes only for headers that its own view takes to be of a
  // validator, and one of a correct author was made by that author.
  lemma VotedWereMade(c: Setting, ws: seq<World>, acts: seq<Action>, i: nat, s: Signing)
    requires IsRun(c, ws, acts) && i < |ws| && s in ws[i].signings && s.Voted?
    ensures s.header.author in s.node.peer.validators
    ensures s.header.author !in c.faulty ==> WasMade(ws[i], s.header.author, s.header)
  {
    RunKeepsInv(c, ws, acts, i);
    RunKeepsOwn(c, ws, acts, i);
    RunKeepsVotedSigned(c, ws, acts, i);
    assert GoodSigning(c, ws[i], s);
    ValidIsSigned(s.node.peer, s.header);
    assert OwnSig(c, ws[i], s.header.signature);
  }

  // A verifying certificate is for a header of a validator, and if that is correct it made the
  // header; so every batch of it had been saved by at least f + 1 correct validators.
  lemma CertifiedWereMade(c: Setting, ws: seq<World>, acts: seq<Action>, i: nat, cert: Certificate)
    requires Proper(c) && IsRun(c, ws, acts) && i < |ws|
    requires Votes.Verifies(cert, c.validators) && Known(c, cert.header) && cert.header.signature in ws[i].sigs
    ensures cert.Author() in c.validators
    ensures cert.Author() !in c.faulty ==> WasMade(ws[i], cert.Author(), cert.header)
    ensures cert.Author() !in c.faulty ==> forall d :: d in cert.header.BatchDigests() ==> SavedByEnough(c, ws[i], d)
  {
    RunKeepsOwn(c, ws, acts, i);
    assert OwnSig(c, ws[i], cert.header.signature);
    if cert.Author() !in c.faulty {
      var s :| s in ws[i].signings && s.Made? && s.validator == cert.Author() && s.header == cert.header;
      forall d | d in cert.header.BatchDigests() ensures SavedByEnough(c, ws[i], d) {
        HeadersAreAcked(c, ws, acts, i, s, d);
        assert Savers(c, ws[i], d, s.node.acks[d] - c.faulty);
      }
    }
  }

  ghost predicate Savers(c: Setting, w: World, d: Hash, us: set<nat>) {
    us <= c.validators - c.faulty && forall u :: u in us ==> u in w.nodes && d in w.nodes[u].saved
  }

  ghost predicate SavedByEnough(c: Setting, w: World, d: Hash) {
    exists us :: Savers(c, w, d, us) && |us| >= F(|c.validators|) + 1
  }
}
