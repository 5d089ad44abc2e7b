// Who still holds the data when deletions are allowed (gc/gc.go against primary/primary.go): the
// exact condition for f + 1 correct holders behind a certificate.
module Availability {
  import opened Types
  import opened Quorum
  import opened Protocol
  import Acks
  import CertStore
  import Rounds
  import Votes

  // ---- What a validator holds, read off the run -------------------------------------------------------

  ghost predicate Stores(a: Action, v: nat, d: Hash) { (a.CutBatch? || a.ReceiveBatch?) && a.v == v && a.d == d }

  ghost predicate Deletes(a: Action, v: nat, d: Hash) { a.Change? && a.v == v && d in a.gone }

  // v stored d before step n, and has not deleted it since.
  ghost predicate HeldAt(acts: seq<Action>, n: nat, v: nat, d: Hash)
    requires n <= |acts|
  {
    exists k :: 0 <= k < n && Stores(acts[k], v, d) && forall j :: k < j < n ==> !Deletes(acts[j], v, d)
  }

  lemma HeldStep(acts: seq<Action>, n: nat, v: nat, d: Hash)
    requires 0 < n <= |acts|
    ensures HeldAt(acts, n, v, d) <==>
      Stores(acts[n - 1], v, d) || (HeldAt(acts, n - 1, v, d) && !Deletes(acts[n - 1], v, d))
  {
    if HeldAt(acts, n, v, d) && !Stores(acts[n - 1], v, d) {
      var k :| 0 <= k < n && Stores(acts[k], v, d) && forall j :: k < j < n ==> !Deletes(acts[j], v, d);
      assert k < n - 1;
    }
    if HeldAt(acts, n - 1, v, d) && !Deletes(acts[n - 1], v, d) {
      var k :| 0 <= k < n - 1 && Stores(acts[k], v, d) && forall j :: k < j < n - 1 ==> !Deletes(acts[j], v, d);
      assert 0 <= k < n && Stores(acts[k], v, d);
    }
  }

  lemma StoredStep(c: Setting, w: World, a: Action, v: nat, d: Hash)
    requires Enabled(c, w, a) && v in w.nodes
    ensures v in Next(c, w, a).nodes
    ensures d in Next(c, w, a).nodes[v].stored <==> Stores(a, v, d) || (d in w.nodes[v].stored && !Deletes(a, v, d))
  {}

  lemma {:induction false} StoredIff(c: Setting, ws: seq<World>, acts: seq<Action>, n: nat, v: nat, d: Hash)
    requires IsRun(c, ws, acts) && n <= |acts| && v in c.validators - c.faulty
    ensures v in ws[n].nodes && (d in ws[n].nodes[v].stored <==> HeldAt(acts, n, v, d))
  {
    if n == 0 {
      assert v in ws[0].nodes.Keys;
    } else {
      var k := n - 1;
      StoredIff(c, ws, acts, k, v, d);
      assert Enabled(c, ws[k], acts[k]) && ws[k + 1] == Next(c, ws[k], acts[k]);
      StoredStep(c, ws[k], acts[k], v, d);
      HeldStep(acts, n, v, d);
    }
  }

  // Step j is v signing h.
  ghost predicate Signs(a: Action, v: nat, h: Header) { (a.MakeHeader? || a.VoteFor?) && a.v == v && a.h == h }

  ghost function SigningOf(w: World, a: Action): Signing
    requires (a.MakeHeader? || a.VoteFor?) && a.v in w.nodes
  {
    if a.MakeHeader? then Made(a.v, a.h, w.nodes[a.v]) else Voted(a.v, a.h, w.nodes[a.v])
  }

  // Every recorded signing was a step of the run, with the node as it was then.
  lemma {:induction false} SignedAt(c: Setting, ws: seq<World>, acts: seq<Action>, i: nat, s: Signing) returns (j: nat)
    requires IsRun(c, ws, acts) && i < |ws| && s in ws[i].signings
    ensures j < i && Signs(acts[j], s.validator, s.header) && acts[j].v in ws[j].nodes && s == SigningOf(ws[j], acts[j])
  {
    assert i > 0;
    var k := i - 1;
    assert Enabled(c, ws[k], acts[k]) && ws[k + 1] == Next(c, ws[k], acts[k]);
    if s in ws[k].signings {
      j := SignedAt(c, ws, acts, k, s);
    } else {
      j := k;
    }
  }

  lemma {:induction false} SigningsStay(c: Setting, ws: seq<World>, acts: seq<Action>, j: nat, i: nat)
    requires IsRun(c, ws, acts) && j <= i < |ws|
    ensures ws[j].signings <= ws[i].signings
    decreases i
  {
    if j < i {
      var k := i - 1;
      SigningsStay(c, ws, acts, j, k);
      assert Enabled(c, ws[k], acts[k]) && ws[k + 1] == Next(c, ws[k], acts[k]);
    }
  }

  // ---- When the signer of a header holds its batches ------------------------------------------------------

  // At step j, v signs h, and has stored every batch of it and deleted none since.
  ghost predicate SignsHolding(acts: seq<Action>, j: nat, v: nat, h: Header)
    requires j < |acts|
  {
    Signs(acts[j], v, h) && forall d :: d in h.BatchDigests() ==> HeldAt(acts, j, v, d)
  }

  // v's signature over h, with every batch of h in its store at that moment.
  ghost predicate Holds(w: World, h: Header, v: nat) {
    exists s :: s in w.signings && s.validator == v && s.header == h && h.BatchDigests() <= s.node.stored
  }

  lemma HoldsStep(c: Setting, ws: seq<World>, acts: seq<Action>, j: nat, v: nat, h: Header)
    requires IsRun(c, ws, acts) && j < |acts| && Signs(acts[j], v, h) && v in c.validators - c.faulty
    ensures v in ws[j].nodes && (h.BatchDigests() <= ws[j].nodes[v].stored <==> SignsHolding(acts, j, v, h))
  {
    forall d ensures v in ws[j].nodes && (d in ws[j].nodes[v].stored <==> HeldAt(acts, j, v, d)) {
      StoredIff(c, ws, acts, j, v, d);
    }
  }

  // In every run a correct validator has signed a header while holding its batches exactly when
  // at some step it signed the header having stored each batch and deleted none since.
  lemma HoldsIff(c: Setting, ws: seq<World>, acts: seq<Action>, i: nat, v: nat, h: Header)
    requires IsRun(c, ws, acts) && i < |ws| && v in c.validators - c.faulty
    ensures Holds(ws[i], h, v) <==> exists j :: 0 <= j < i && SignsHolding(acts, j, v, h)
  {
    if Holds(ws[i], h, v) {
      var s :| s in ws[i].signings && s.validator == v && s.header == h && h.BatchDigests() <= s.node.stored;
      var j := SignedAt(c, ws, acts, i, s);
      HoldsStep(c, ws, acts, j, v, h);
    }
    if j :| 0 <= j < i && SignsHolding(acts, j, v, h) {
      HoldsStep(c, ws, acts, j, v, h);
      assert Enabled(c, ws[j], acts[j]) && ws[j + 1] == Next(c, ws[j], acts[j]);
      var s := SigningOf(ws[j], acts[j]);
      SigningsStay(c, ws, acts, j + 1, i);
      assert s in ws[i].signings;
    }
  }

  // ---- When f + 1 correct voters held the data --------------------------------------------------------------

  ghost function Holders(w: World, h: Header, vs: set<nat>): set<nat> { set v | v in vs && Holds(w, h, v) }

  lemma CountHolders(vs: set<nat>, holders: set<nat>, author: nat, f: nat)
    requires vs - {author} <= holders <= vs && |vs - {author}| >= f
    ensures |holders| >= f + 1 <==> |vs - {author}| >= f + 1 || author in holders
  {
    if author in holders {
      assert holders == (vs - {author}) + {author};
    } else {
      assert holders == vs - {author};
    }
  }

  // Behind a verifying certificate with distinct voters, at least f + 1 correct voters signed while
  // holding every batch exactly when f + 1 of them are not the author, or the author too signed
  // having stored each batch and deleted none since.
  lemma EnoughHoldersIff(c: Setting, ws: seq<World>, acts: seq<Action>, i: nat, cert: Certificate)
    requires Proper(c) && IsRun(c, ws, acts) && i < |ws|
    requires Votes.Verifies(cert, c.validators) && Votes.ByValidator(cert.votes) && Known(c, cert.header)
    requires forall vote :: vote in cert.votes ==> vote.signature in ws[i].sigs
    ensures var correct, author := Voters(cert.votes) - c.faulty, cert.Author();
      |Holders(ws[i], cert.header, correct)| >= F(|c.validators|) + 1 <==>
        || |correct - {author}| >= F(|c.validators|) + 1
        || (author in correct && exists j :: 0 <= j < i && SignsHolding(acts, j, author, cert.header))
  {
    var correct, author := Voters(cert.votes) - c.faulty, cert.Author();
    var holders := Holders(ws[i], cert.header, correct);
    CertificatesAreBacked(c, ws, acts, i, cert);
    VotersFormQuorum(c.validators, cert);
    forall v | v in correct - {author} ensures v in holders {
      assert Backs(ws[i], cert.header, v);
    }
    if author in correct {
      HoldsIff(c, ws, acts, i, author, cert.header);
    }
    CountHolders(correct, holders, author, F(|c.validators|));
  }

  // ---- A run in which they do not ------------------------------------------------------------------------------

  // One validator cuts a batch, collects it while its digest waits, and then makes the header.
  ghost function LoneHeader(): Header {
    Header(0, 0, 0, [BatchRef(7, 0, 0)], [], 0, 1, Sig(0, 1, 0))
  }

  ghost function LoneSetting(): Setting { Setting({0}, {}, map[1 := LoneHeader()]) }

  ghost function LonePeer(): Rounds.Peer { Rounds.Peer(0, 0, {0}, 0, CertStore.CertState(map[], map[], map[])) }

  ghost function LoneNode(k: nat): Node {
    if k == 0 then Node(LonePeer(), {}, {}, {}, map[])
    else Node(LonePeer(), if k == 1 then {7} else {}, {7}, if k < 3 then {7} else {}, map[7 := {0}])
  }

  ghost function LoneWorld(k: nat): World {
    World(map[0 := LoneNode(k)], if k == 0 then {} else {Ack(0, 7)},
      if k < 3 then {} else {Made(0, LoneHeader(), LoneNode(2))},
      if k < 3 then {} else {Sig(0, 1, 0), Sig(0, 1, 1)})
  }

  ghost function LoneAction(k: nat): Action {
    if k == 0 then CutBatch(0, 7)
    else if k == 1 then Change(0, LonePeer(), {7}, {})
    else MakeHeader(0, LoneHeader(), 1, {})
  }

  lemma LoneBatches()
    ensures LoneHeader().BatchDigests() == {7}
  {
    assert LoneHeader().batchRefs[0] in LoneHeader().batchRefs;
  }

  lemma LoneCut()
    ensures Enabled(LoneSetting(), LoneWorld(0), LoneAction(0))
    ensures Next(LoneSetting(), LoneWorld(0), LoneAction(0)) == LoneWorld(1)
  {
    var tracked: Acks.AckState := Acks.TrackSpec(map[], 7);
    var none: set<nat>, empty: set<Hash> := {}, {};
    assert tracked[7] + {0} == {0} by { assert tracked[7] == none; }
    assert Acks.AckSpec(tracked, 7, 0) == map[7 := {0}];
    assert empty + {7} == {7};
    assert Next(LoneSetting(), LoneWorld(0), LoneAction(0)).nodes[0] == LoneNode(1);
    assert Next(LoneSetting(), LoneWorld(0), LoneAction(0)).nodes == map[0 := LoneNode(1)];
  }

  lemma LoneCollect()
    ensures Enabled(LoneSetting(), LoneWorld(1), LoneAction(1))
    ensures Next(LoneSetting(), LoneWorld(1), LoneAction(1)) == LoneWorld(2)
  {
    assert LoneNode(1).acks - {} == LoneNode(1).acks;
    assert LoneNode(1).stored - {7} == {};
    assert Next(LoneSetting(), LoneWorld(1), LoneAction(1)).nodes[0] == LoneNode(2);
    assert Next(LoneSetting(), LoneWorld(1), LoneAction(1)).nodes == map[0 := LoneNode(2)];
  }

  lemma LoneMake()
    ensures Enabled(LoneSetting(), LoneWorld(2), LoneAction(2))
    ensures Next(LoneSetting(), LoneWorld(2), LoneAction(2)) == LoneWorld(3)
  {
    LoneBatches();
    assert {7} - (LoneHeader().BatchDigests() - {}) == {};
    assert Next(LoneSetting(), LoneWorld(2), LoneAction(2)).nodes == map[0 := LoneNode(3)];
  }

  ghost function LoneWorlds(): seq<World> { seq(4, k requires 0 <= k => LoneWorld(k)) }

  ghost function LoneActions(): seq<Action> { seq(3, k requires 0 <= k => LoneAction(k)) }

  ghost function LoneCertificate(): Certificate { Certificate(LoneHeader(), [Vote(1, 0, Sig(0, 1, 1))]) }

  lemma LoneRun()
    ensures Proper(LoneSetting()) && IsRun(LoneSetting(), LoneWorlds(), LoneActions())
  {
    assert LoneWorld(0).nodes.Keys == {0} - {};
    forall i | 0 <= i < 3
      ensures Enabled(LoneSetting(), LoneWorlds()[i], LoneActions()[i])
        && LoneWorlds()[i + 1] == Next(LoneSetting(), LoneWorlds()[i], LoneActions()[i])
    {
      if i == 0 { LoneCut(); } else if i == 1 { LoneCollect(); } else { LoneMake(); }
    }
  }

  lemma LoneVerifies()
    ensures Votes.Verifies(LoneCertificate(), {0}) && Votes.ByValidator(LoneCertificate().votes)
      && Voters(LoneCertificate().votes) == {0}
  {
    assert LoneCertificate().votes[0] in LoneCertificate().votes;
    assert |{0}| == 1;
  }

  // The run is one of the protocol, its certificate verifies and has a correct voter, and no
  // correct voter held the batch when it signed.
  lemma NoHolders()
    ensures var c, ws, cert := LoneSetting(), LoneWorlds(), LoneCertificate();
      && Proper(c) && IsRun(c, ws, LoneActions()) && Votes.Verifies(cert, c.validators) && Votes.ByValidator(cert.votes)
      && Known(c, cert.header) && (forall vote :: vote in cert.votes ==> vote.signature in ws[3].sigs)
      && Voters(cert.votes) - c.faulty == {0} && Holders(ws[3], cert.header, {0}) == {}
  {
    LoneRun();
    LoneVerifies();
    LoneBatches();
    assert 7 in LoneHeader().BatchDigests() && 7 !in LoneNode(2).stored;
    assert LoneWorlds()[3].signings == {Made(0, LoneHeader(), LoneNode(2))};
    assert !Holds(LoneWorlds()[3], LoneHeader(), 0);
  }
}
