// The values that validators exchange: batches, headers, votes and certificates.
//
// Digests are opaque identifiers.  A signature records who produced it and over
// which digest, so that it verifies only under that validator's key; the nonce
// lets one validator hold several valid signatures over the same digest.
module Types {

  type Hash = int

  datatype Option<+T> = None | Some(value: T)

  datatype Signature = Sig(signer: nat, message: Hash, nonce: nat)

  datatype Transaction = Tx(hash: Hash, size: nat)

  function TxBytes(txs: seq<Transaction>): nat {
    if txs == [] then 0 else TxBytes(txs[..|txs| - 1]) + txs[|txs| - 1].size
  }

  datatype Batch = Batch(
    workerId: nat, validatorId: nat, round: nat, txs: seq<Transaction>, digest: Hash, timestamp: int)

  datatype BatchRef = BatchRef(digest: Hash, workerId: nat, validatorId: nat)

  datatype CertRef = CertRef(digest: Hash, round: nat)

  datatype Header = Header(
    author: nat, round: nat, epoch: nat, batchRefs: seq<BatchRef>, parents: seq<CertRef>,
    timestamp: int, digest: Hash, signature: Signature)
  {
    // The digests the header cites as parents.
    ghost function ParentDigests(): set<Hash> {
      set ref | ref in parents :: ref.digest
    }

    // The digests of the batches the header cites.
    ghost function BatchDigests(): set<Hash> {
      set ref | ref in batchRefs :: ref.digest
    }
  }

  datatype Vote = Vote(headerDigest: Hash, validator: nat, signature: Signature)

  datatype Certificate = Certificate(header: Header, votes: seq<Vote>)
  {
    function Digest(): Hash { header.digest }
    function Round(): nat { header.round }
    function Author(): nat { header.author }
    function Ref(): CertRef { CertRef(header.digest, header.round) }
    ghost function Parents(): set<Hash> { header.ParentDigests() }
  }

  // The voters of a list of votes.
  ghost function Voters(votes: seq<Vote>): set<nat> {
    set v | v in votes :: v.validator
  }
}
