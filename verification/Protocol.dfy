// Data availability across validators: what the acknowledgments behind a header and the votes
// behind a certificate say about who holds the data (worker/worker.go, worker/ack_tracker.go,
// primary/primary.go, looseberry.go).
//
// Correct validators take the steps below, in any interleaving; at most f others may sign and
// acknowledge anything.  Garbage collection, round changes and certificate arrivals may change a
// validator's stores at any time.
module Protocol {
  import opened Types
  import opened Lists
  import opened Quorum
  import Acks
  import Rounds
  import Votes
  import Voting

  datatype Setting = Setting(validators: set<nat>, faulty: set<nat>, headers: map<Hash, Header>)

  // A correct validator.  saved holds every batch it ever stored, stored those it still has.
  datatype Node = Node(peer: Rounds.Peer, stored: set<Hash>, saved: set<Hash>, queue: set<Hash>, acks: Acks.AckState)

  datatype Ack = Ack(validator: nat, digest: Hash)

  // A correct validator's signature over a header, with what it held at that moment.
  datatype Signing =
    | Voted(validator: nat, header: Header, node: Node)
    | Made(validator: nat, header: Header, node: Node)

  datatype World = World(nodes: map<nat, Node>, acks: set<Ack>, signings: set<Signing>, sigs: set<Signature>)

  // MakeHeader's again holds the digests that were queued more than once and stay queued.
  datatype Action =
    | CutBatch(v: nat, d: Hash)
    | ReceiveBatch(v: nat, d: Hash)
    | ReceiveAck(v: nat, from: nat, d: Hash)
    | MakeHeader(v: nat, h: Header, nonce: nat, again: set<Hash>)
    | VoteFor(v: nat, h: Header, nonce: nat)
    | Change(v: nat, peer: Rounds.Peer, gone: set<Hash>, expired: set<Hash>)
    | Misbehave(sig: Signature)

  ghost predicate Proper(c: Setting) {
    FewFaulty(c.validators, c.faulty) && forall d :: d in c.headers ==> c.headers[d].digest == d
  }

  ghost function Needed(c: Setting): nat { QuorumSize(|c.validators|) }

  // Digests identify headers.
  ghost predicate Known(c: Setting, h: Header) { h.digest in c.headers && c.headers[h.digest] == h }

  // The digest has an ack quorum.
  ghost predicate Acked(c: Setting, n: Node, d: Hash) { Acks.Ready(n.acks, d, Needed(c)) }

  ghost predicate Enabled(c: Setting, w: World, a: Action) {
    match a
    case CutBatch(v, d) => v in w.nodes
    case ReceiveBatch(v, d) => v in w.nodes
    case ReceiveAck(v, from, d) => v in w.nodes && from in c.validators && (from in c.faulty || Ack(from, d) in w.acks)
    case MakeHeader(v, h, nonce, again) =>
      && v in w.nodes && Known(c, h) && h.author == v && Votes.Signed(h.signature, v, h.digest)
      && forall d :: d in h.BatchDigests() ==> d in w.nodes[v].queue && Acked(c, w.nodes[v], d)
    case VoteFor(v, h, nonce) =>
      && v in w.nodes && Known(c, h) && Rounds.ValidateSpec(w.nodes[v].peer, h) == Rounds.Valid
      && h.signature in w.sigs && h.BatchDigests() <= w.nodes[v].stored
    case Change(v, peer, gone, expired) => v in w.nodes
    case Misbehave(sig) => sig.signer in c.faulty
  }

  ghost function NextNode(w: World, v: nat, n: Node): World { w.(nodes := w.nodes[v := n]) }

  ghost function Next(c: Setting, w: World, a: Action): World
    requires Enabled(c, w, a)
  {
    match a
    case CutBatch(v, d) =>
      var n := w.nodes[v];
      NextNode(w, v,
        n.(stored := n.stored + {d}, saved := n.saved + {d}, queue := n.queue + {d},
          acks := Acks.AckSpec(Acks.TrackSpec(n.acks, d), d, v)))
        .(acks := w.acks + {Ack(v, d)})
    case ReceiveBatch(v, d) =>
      var n := w.nodes[v];
      NextNode(w, v, n.(stored := n.stored + {d}, saved := n.saved + {d})).(acks := w.acks + {Ack(v, d)})
    case ReceiveAck(v, from, d) =>
      var n := w.nodes[v];
      NextNode(w, v, n.(acks := Acks.AckSpec(n.acks, d, from)))
    case MakeHeader(v, h, nonce, again) =>
      var n := w.nodes[v];
      NextNode(w, v, n.(queue := n.queue - (h.BatchDigests() - again)))
        .(signings := w.signings + {Made(v, h, n)}, sigs := w.sigs + {h.signature, Sig(v, h.digest, nonce)})
    case VoteFor(v, h, nonce) =>
      w.(signings := w.signings + {Voted(v, h, w.nodes[v])}, sigs := w.sigs + {Sig(v, h.digest, nonce)})
    case Change(v, peer, gone, expired) =>
      var n := w.nodes[v];
      NextNode(w, v, n.(peer := peer, stored := n.stored - gone, acks := n.acks - expired))
    case Misbehave(sig) => w.(sigs := w.sigs + {sig})
  }

  ghost predicate Start(c: Setting, w: World) {
    && w.nodes.Keys == c.validators - c.faulty && w.acks == {} && w.signings == {} && w.sigs == {}
    && forall v :: v in w.nodes ==>
      w.nodes[v].stored == {} && w.nodes[v].saved == {} && w.nodes[v].queue == {} && w.nodes[v].acks == map[]
  }

  ghost predicate IsRun(c: Setting, ws: seq<World>, acts: seq<Action>) {
    && |ws| == |acts| + 1 && Start(c, ws[0])
    && forall i :: 0 <= i < |acts| ==> Enabled(c, ws[i], acts[i]) && ws[i + 1] == Next(c, ws[i], acts[i])
  }

  // ---- The invariant --------------------------------------------------------------------------

  // What is stored or queued was saved, and every recorded ack of a correct validator was sent.
  ghost predicate GoodNode(c: Setting, w: World, n: Node) {
    && n.stored <= n.saved && n.queue <= n.saved
    && forall d :: d in n.acks ==> GoodAcks(c, w, n.acks[d], d)
  }

  ghost predicate GoodAcks(c: Setting, w: World, from: set<nat>, d: Hash) {
    from <= c.validators && forall u :: u in from && u !in c.faulty ==> Ack(u, d) in w.acks
  }

  // A correct validator acknowledges only what it saved.
  ghost predicate GoodAck(w: World, a: Ack) {
    a.validator in w.nodes && a.digest in w.nodes[a.validator].saved
  }

  ghost predicate GoodSigning(c: Setting, w: World, s: Signing) {
    && s.validator in w.nodes && Known(c, s.header) && GoodNode(c, w, s.node)
    && (if s.Made? then
          s.header.author == s.validator
          && forall d :: d in s.header.BatchDigests() ==> d in s.node.queue && Acked(c, s.node, d)
        else
          s.header.BatchDigests() <= s.node.stored && Rounds.ValidateSpec(s.node.peer, s.header) == Rounds.Valid)
  }

  // Nobody forges a correct validator's signature.
  ghost predicate GoodSig(c: Setting, w: World, sig: Signature) {
    sig.signer in c.faulty || exists s :: s in w.signings && s.validator == sig.signer && s.header.digest == sig.message
  }

  ghost predicate Inv(c: Setting, w: World) {
    && w.nodes.Keys == c.validators - c.faulty
    && (forall v :: v in w.nodes ==> GoodNode(c, w, w.nodes[v]))
    && (forall a :: a in w.acks ==> GoodAck(w, a))
    && (forall s :: s in w.signings ==> GoodSigning(c, w, s))
    && (forall sig :: sig in w.sigs ==> GoodSig(c, w, sig))
  }

  // Acks, signings and saved batches only accumulate.
  ghost predicate Grows(w: World, w': World) {
    && w.acks <= w'.acks && w.signings <= w'.signings && w.nodes.Keys == w'.nodes.Keys
    && forall v :: v in w.nodes ==> w.nodes[v].saved <= w'.nodes[v].saved
  }

  lemma GrowsKeeps(c: Setting, w: World, w': World)
    requires Inv(c, w) && Grows(w, w')
    ensures forall n :: GoodNode(c, w, n) ==> GoodNode(c, w', n)
    ensures forall a :: a in w.acks ==> GoodAck(w', a)
    ensures forall s :: s in w.signings ==> GoodSigning(c, w', s)
    ensures forall sig :: sig in w.sigs ==> GoodSig(c, w', sig)
  {
    forall n | GoodNode(c, w, n) ensures GoodNode(c, w', n) {
      forall d | d in n.acks ensures GoodAcks(c, w', n.acks[d], d) {
        assert GoodAcks(c, w, n.acks[d], d);
      }
    }
    forall sig | sig in w.sigs ensures GoodSig(c, w', sig) {
      assert GoodSig(c, w, sig);
    }
  }

  lemma NextGrows(c: Setting, w: World, a: Action)
    requires Inv(c, w) && Enabled(c, w, a)
    ensures Grows(w, Next(c, w, a))
  {}

  lemma NextKeepsInv(c: Setting, w: World, a: Action)
    requires Inv(c, w) && Enabled(c, w, a)
    ensures Inv(c, Next(c, w, a))
  {
    var w' := Next(c, w, a);
    NextGrows(c, w, a);
    GrowsKeeps(c, w, w');
    if !a.Misbehave? {
      NodeKept(c, w, a);
    }
    if a.VoteFor? || a.MakeHeader? {
      SigningAdded(c, w, a);
    }
  }

  lemma NodeKept(c: Setting, w: World, a: Action)
    requires Inv(c, w) && Enabled(c, w, a) && !a.Misbehave?
    ensures var w' := Next(c, w, a); GoodNode(c, w', w'.nodes[a.v])
  {
    var w', n := Next(c, w, a), w.nodes[a.v];
    assert GoodNode(c, w, n);
    var n' := w'.nodes[a.v];
    forall d | d in n'.acks ensures GoodAcks(c, w', n'.acks[d], d) {
      if d in n.acks {
        assert GoodAcks(c, w, n.acks[d], d);
      }
    }
  }

  lemma SigningAdded(c: Setting, w: World, a: Action)
    requires Inv(c, w) && Enabled(c, w, a) && (a.VoteFor? || a.MakeHeader?)
    ensures var w' := Next(c, w, a);
      && (forall s :: s in w'.signings ==> GoodSigning(c, w', s))
        && forall sig :: sig in w'.sigs ==> GoodSig(c, w', sig)
  {
    var w' := Next(c, w, a);
    NextGrows(c, w, a);
    GrowsKeeps(c, w, w');
    var s := if a.VoteFor? then Voted(a.v, a.h, w.nodes[a.v]) else Made(a.v, a.h, w.nodes[a.v]);
    assert s in w'.signings;
    assert GoodNode(c, w, w.nodes[a.v]);
  }

  lemma {:induction false} RunKeepsInv(c: Setting, ws: seq<World>, acts: seq<Action>, i: nat)
    requires IsRun(c, ws, acts) && i < |ws|
    ensures Inv(c, ws[i])
  {
    if i > 0 {
      RunKeepsInv(c, ws, acts, i - 1);
      assert ws[i - 1 + 1] == Next(c, ws[i - 1], acts[i - 1]);
      NextKeepsInv(c, ws[i - 1], acts[i - 1]);
    }
  }

  // ---- The main results ---------------------------------------------------------------------------

  // v signed h having saved every batch of it; unless v made h, it held them all, and every
  // parent, at that moment.
  ghost predicate Backs(w: World, h: Header, v: nat) {
    exists s :: s in w.signings && s.validator == v && s.header == h && BackedBy(s, h)
  }

  ghost predicate BackedBy(s: Signing, h: Header) {
    && h.BatchDigests() <= s.node.saved
    && (s.validator != h.author ==>
          h.BatchDigests() <= s.node.stored && (h.round > 0 ==> Rounds.HoldsParents(s.node.peer.store, h)))
  }

  lemma SigningBacks(c: Setting, w: World, s: Signing)
    requires Inv(c, w) && s in w.signings
    ensures BackedBy(s, s.header)
  {
    assert GoodSigning(c, w, s);
    assert s.Made? ==> forall d :: d in s.header.BatchDigests() ==> d in s.node.saved;
  }

  lemma VoterBacks(c: Setting, w: World, cert: Certificate, vote: Vote)
    requires Inv(c, w) && Known(c, cert.header) && Votes.Verifies(cert, c.validators)
    requires vote in cert.votes && vote.signature in w.sigs && vote.validator !in c.faulty
    ensures Backs(w, cert.header, vote.validator)
  {
    assert Votes.VoteCheck(vote, cert.header, c.validators) == Votes.Verified;
    assert GoodSig(c, w, vote.signature);
    var s :| s in w.signings && s.validator == vote.validator && s.header.digest == cert.header.digest;
    assert GoodSigning(c, w, s);
    SigningBacks(c, w, s);
  }

  // In every run with at most f faulty validators, a verifying certificate with distinct voters
  // has at least f + 1 correct voters that had saved every batch it references when they signed
  // it, at least f of which held all of these and every parent at that moment.
  lemma CertificatesAreBacked(c: Setting, ws: seq<World>, acts: seq<Action>, i: nat, cert: Certificate)
    requires Proper(c) && IsRun(c, ws, acts) && i < |ws|
    requires Votes.Verifies(cert, c.validators) && Votes.ByValidator(cert.votes) && Known(c, cert.header)
    requires forall vote :: vote in cert.votes ==> vote.signature in ws[i].sigs
    ensures var correct := Voters(cert.votes) - c.faulty;
      && |correct| >= F(|c.validators|) + 1 && |correct - {cert.Author()}| >= F(|c.validators|)
      && forall v :: v in correct ==> Backs(ws[i], cert.header, v)
  {
    var voters := Voters(cert.votes);
    RunKeepsInv(c, ws, acts, i);
    VotersFormQuorum(c.validators, cert);
    CorrectMembers(c.validators, voters, c.faulty);
    var correct := voters - c.faulty;
    CardMono(correct, (correct - {cert.Author()}) + {cert.Author()});
    forall v | v in correct ensures Backs(ws[i], cert.header, v) {
      var vote :| vote in cert.votes && vote.validator == v;
      VoterBacks(c, ws[i], cert, vote);
    }
  }

  // In particular every certificate that a correct validator's vote tracker builds, in any run of
  // vote messages, new headers and cleanup.
  lemma TrackerCertificatesAreBacked(c: Setting, ws: seq<World>, acts: seq<Action>, i: nat,
                                     self: nat, es: seq<Voting.Event>, k: nat, cert: Certificate)
    requires Proper(c) && IsRun(c, ws, acts) && i < |ws|
    requires var cfg := Voting.Config(self, c.validators);
      && Voting.Proper(cfg, es) && k < |Voting.Run(cfg, es).1|
        && Votes.CertifiedBy(Voting.Run(cfg, es).1[k], Needed(c), cert)
    requires Known(c, cert.header) && forall vote :: vote in cert.votes ==> vote.signature in ws[i].sigs
    ensures var correct := Voters(cert.votes) - c.faulty;
      && |cert.votes| == Needed(c) && |correct| >= F(|c.validators|) + 1
        && |correct - {cert.Author()}| >= F(|c.validators|)
      && forall v :: v in correct ==> Backs(ws[i], cert.header, v)
  {
    Voting.CertificatesAreEarned(Voting.Config(self, c.validators), es, cert, k);
    CertificatesAreBacked(c, ws, acts, i, cert);
  }

  lemma VotersFormQuorum(validators: set<nat>, cert: Certificate)
    requires Votes.Verifies(cert, validators) && Votes.ByValidator(cert.votes)
    ensures IsQuorum(validators, Voters(cert.votes))
  {
    Votes.VotersCount(cert.votes);
    forall vote | vote in cert.votes ensures vote.validator in validators {
      assert Votes.VoteCheck(vote, cert.header, validators) == Votes.Verified;
    }
  }

  // With n = 3f + 1 validators, any two verifying certificates with distinct voters share f + 1
  // voters, one of them correct.
  lemma TwoCertificatesMeet(validators: set<nat>, faulty: set<nat>, a: Certificate, b: Certificate)
    requires |validators| % 3 == 1 && FewFaulty(validators, faulty)
    requires Votes.Verifies(a, validators) && Votes.ByValidator(a.votes) && Votes.Verifies(b, validators)
      && Votes.ByValidator(b.votes)
    ensures |Voters(a.votes) * Voters(b.votes)| >= F(|validators|) + 1
    ensures exists v :: v in Voters(a.votes) && v in Voters(b.votes) && v !in faulty
  {
    VotersFormQuorum(validators, a);
    VotersFormQuorum(validators, b);
    ShareCorrect(validators, Voters(a.votes), Voters(b.votes), faulty);
    var v :| v in Voters(a.votes) * Voters(b.votes) - faulty;
  }

  // Every digest in a header a correct validator made was acknowledged by a quorum of distinct
  // validators, so at least f + 1 correct ones had saved the batch.
  lemma HeadersAreAcked(c: Setting, ws: seq<World>, acts: seq<Action>, i: nat, s: Signing, d: Hash)
    requires Proper(c) && IsRun(c, ws, acts) && i < |ws| && s in ws[i].signings && s.Made?
      && d in s.header.BatchDigests()
    ensures d in s.node.acks && s.node.acks[d] <= c.validators && |s.node.acks[d]| >= Needed(c)
    ensures var correct := s.node.acks[d] - c.faulty;
      && |correct| >= F(|c.validators|) + 1
      && forall u :: u in correct ==> u in ws[i].nodes && d in ws[i].nodes[u].saved
  {
    var w := ws[i];
    RunKeepsInv(c, ws, acts, i);
    assert GoodSigning(c, w, s);
    assert Acked(c, s.node, d);
    assert GoodAcks(c, w, s.node.acks[d], d);
    CorrectMembers(c.validators, s.node.acks[d], c.faulty);
    forall u | u in s.node.acks[d] - c.faulty ensures u in w.nodes && d in w.nodes[u].saved {
      assert GoodAck(w, Ack(u, d));
    }
  }
}
