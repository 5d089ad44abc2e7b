// The LevelDB batch store (store/leveldb_batch.go), over one map from byte strings to byte
// strings.  Digests are 256-bit numbers and rounds 64-bit ones, both written big-endian.
module LevelDb {
  import opened Types
  import opened Lists
  import opened BatchStore

  type Byte = b: int | 0 <= b < 256

  type Bytes = seq<Byte>

  // ---- Big-endian numbers -------------------------------------------------------------------------

  ghost function Limit(k: nat): nat {
    if k == 0 then 1 else 256 * Limit(k - 1)
  }

  function PutBE(n: nat, k: nat): (s: Bytes)
    ensures |s| == k
  {
    if k == 0 then [] else PutBE(n / 256, k - 1) + [n % 256]
  }

  function GetBE(s: Bytes): nat {
    if s == [] then 0 else GetBE(s[..|s| - 1]) * 256 + s[|s| - 1]
  }

  lemma {:induction false} BERoundTrip(n: nat, k: nat)
    requires n < Limit(k)
    ensures GetBE(PutBE(n, k)) == n
  {
    if k > 0 {
      BERoundTrip(n / 256, k - 1);
      assert PutBE(n, k)[..k - 1] == PutBE(n / 256, k - 1);
    }
  }

  // s comes before t in the order of the keys.
  ghost predicate KeyBefore(s: Bytes, t: Bytes) {
    |s| == |t| && exists i :: 0 <= i < |s| && s[..i] == t[..i] && s[i] < t[i]
  }

  // Keys of numbers are in the order of the numbers.
  lemma {:induction false} BEOrdered(m: nat, n: nat, k: nat)
    requires m < n < Limit(k)
    ensures KeyBefore(PutBE(m, k), PutBE(n, k))
  {
    var s, t := PutBE(m, k), PutBE(n, k);
    if m / 256 < n / 256 {
      BEOrdered(m / 256, n / 256, k - 1);
      var s', t' := PutBE(m / 256, k - 1), PutBE(n / 256, k - 1);
      var i :| 0 <= i < |s'| && s'[..i] == t'[..i] && s'[i] < t'[i];
      assert s[..i] == s'[..i] && t[..i] == t'[..i] && s[i] == s'[i] && t[i] == t'[i];
    } else {
      assert s[..k - 1] == PutBE(m / 256, k - 1) == t[..k - 1];
      assert s[k - 1] < t[k - 1];
    }
  }

  // ---- Keys ------------------------------------------------------------------------------------------

  const ROUND_SIZE := 8
  const HASH_SIZE := 32
  const BATCH_PREFIX: Bytes := [66, 58]
  const ROUND_PREFIX: Bytes := [66, 82, 58]
  const HIGHEST_KEY: Bytes := [66, 77, 58, 104, 105, 103, 104, 101, 115, 116, 95, 114, 111, 117, 110, 100]

  // A digest of the hash's width.
  ghost predicate IsDigest(d: Hash) { 0 <= d < Limit(HASH_SIZE) }

  ghost predicate IsRound(r: nat) { r < Limit(ROUND_SIZE) }

  function DigestBytes(d: Hash): (s: Bytes)
    ensures |s| == HASH_SIZE
  {
    PutBE(if d < 0 then 0 else d, HASH_SIZE)
  }

  function BatchKey(d: Hash): Bytes { BATCH_PREFIX + DigestBytes(d) }

  function RoundPrefix(r: nat): Bytes { ROUND_PREFIX + PutBE(r, ROUND_SIZE) }

  function RoundKey(r: nat, d: Hash): Bytes { RoundPrefix(r) + DigestBytes(d) }

  function ParseRoundKey(key: Bytes): Option<(nat, Hash)> {
    if |key| < |ROUND_PREFIX| + ROUND_SIZE + HASH_SIZE then None
    else
      var body := key[|ROUND_PREFIX|..];
      Some((GetBE(body[..ROUND_SIZE]), GetBE(body[ROUND_SIZE..ROUND_SIZE + HASH_SIZE])))
  }

  function ExtractDigest(key: Bytes, prefix: Bytes): Option<Hash> {
    if |key| < |prefix| + HASH_SIZE then None else Some(GetBE(key[|prefix|..|prefix| + HASH_SIZE]))
  }

  // Round keys parse back to the round and digest they were made from.
  lemma RoundKeyParses(r: nat, d: Hash)
    requires IsRound(r) && IsDigest(d)
    ensures ParseRoundKey(RoundKey(r, d)) == Some((r, d))
    ensures ExtractDigest(RoundKey(r, d), RoundPrefix(r)) == Some(d)
  {
    BERoundTrip(r, ROUND_SIZE);
    BERoundTrip(d, HASH_SIZE);
    var key := RoundKey(r, d);
    var body := key[|ROUND_PREFIX|..];
    assert body == PutBE(r, ROUND_SIZE) + DigestBytes(d);
    assert body[..ROUND_SIZE] == PutBE(r, ROUND_SIZE);
    assert body[ROUND_SIZE..ROUND_SIZE + HASH_SIZE] == DigestBytes(d);
    assert key[|RoundPrefix(r)|..|RoundPrefix(r)| + HASH_SIZE] == DigestBytes(d);
  }

  lemma BatchKeyInjective(d: Hash, d': Hash)
    requires IsDigest(d) && IsDigest(d') && BatchKey(d) == BatchKey(d')
    ensures d == d'
  {
    BERoundTrip(d, HASH_SIZE);
    BERoundTrip(d', HASH_SIZE);
    assert BatchKey(d)[|BATCH_PREFIX|..] == DigestBytes(d);
    assert BatchKey(d')[|BATCH_PREFIX|..] == DigestBytes(d');
  }

  // The three families of keys are disjoint.
  lemma FamiliesDisjoint(r: nat, d: Hash, d': Hash)
    ensures BatchKey(d') != RoundKey(r, d) && BatchKey(d') != HIGHEST_KEY && RoundKey(r, d) != HIGHEST_KEY
    ensures ROUND_PREFIX <= RoundKey(r, d) && !(ROUND_PREFIX <= BatchKey(d')) && !(ROUND_PREFIX <= HIGHEST_KEY)
  {
    assert BatchKey(d')[1] == 58 && RoundKey(r, d)[1] == 82 && HIGHEST_KEY[1] == 77;
    assert ROUND_PREFIX[1] == 82;
  }

  // The prefix of a round selects exactly that round's keys.
  lemma PrefixSelectsRound(r: nat, r': nat, d: Hash)
    requires IsRound(r) && IsRound(r')
    ensures RoundPrefix(r) <= RoundKey(r', d) <==> r == r'
  {
    var n := |ROUND_PREFIX|;
    if RoundPrefix(r) <= RoundKey(r', d) {
      assert RoundPrefix(r) == RoundKey(r', d)[..n + ROUND_SIZE];
      assert RoundKey(r', d)[..n + ROUND_SIZE] == RoundPrefix(r');
      assert RoundPrefix(r)[n..] == PutBE(r, ROUND_SIZE) && RoundPrefix(r')[n..] == PutBE(r', ROUND_SIZE);
      BERoundTrip(r, ROUND_SIZE);
      BERoundTrip(r', ROUND_SIZE);
    }
  }

  lemma OtherKeysNotSelected(r: nat, d: Hash)
    ensures !(RoundPrefix(r) <= BatchKey(d)) && !(RoundPrefix(r) <= HIGHEST_KEY)
  {
    assert RoundPrefix(r)[1] == 82 && BatchKey(d)[1] == 58 && HIGHEST_KEY[1] == 77;
  }

  // ---- What the database represents ------------------------------------------------------------------

  datatype Codec = Codec(encode: Batch -> Bytes, decode: Bytes -> Option<Batch>)

  ghost predicate Invertible(c: Codec) {
    forall b :: c.decode(c.encode(b)) == Some(b)
  }

  type Db = map<Bytes, Bytes>

  function Highest(db: Db): nat {
    if HIGHEST_KEY in db && |db[HIGHEST_KEY]| >= ROUND_SIZE then GetBE(db[HIGHEST_KEY][..ROUND_SIZE]) else 0
  }

  ghost predicate InWidth(b: Batch) { IsDigest(b.digest) && IsRound(b.round) }

  // A stored batch: its data under its digest, and its round key.
  ghost predicate Stored(c: Codec, db: Db, b: Batch) {
    && BatchKey(b.digest) in db && db[BatchKey(b.digest)] == c.encode(b) && RoundKey(b.round, b.digest) in db
    && b.round <= Highest(db)
  }

  ghost predicate Owns(b: Batch, k: Bytes) {
    k == BatchKey(b.digest) || k == RoundKey(b.round, b.digest)
  }

  ghost predicate Owned(m: Contents, k: Bytes) {
    k == HIGHEST_KEY || exists d :: d in m && Owns(m[d], k)
  }

  // The database holds exactly the batches of m.
  ghost predicate Represents(c: Codec, db: Db, m: Contents) {
    && Keyed(m) && (forall d :: d in m ==> InWidth(m[d]) && Stored(c, db, m[d]))
    && forall k :: k in db ==> Owned(m, k)
  }

  lemma BatchKeyStored(c: Codec, db: Db, m: Contents, d: Hash)
    requires Represents(c, db, m) && IsDigest(d)
    ensures BatchKey(d) in db <==> d in m
    ensures d in m ==> db[BatchKey(d)] == c.encode(m[d])
  {
    if BatchKey(d) in db {
      assert Owned(m, BatchKey(d));
      FamiliesDisjoint(0, d, d);
      var x :| x in m && Owns(m[x], BatchKey(d));
      FamiliesDisjoint(m[x].round, x, d);
      BatchKeyInjective(x, d);
    }
  }

  // A stored key under the prefix of a round is the round key of a batch of that round.
  lemma RoundKeysStored(c: Codec, db: Db, m: Contents, r: nat, k: Bytes) returns (d: Hash)
    requires Represents(c, db, m) && IsRound(r) && k in db && RoundPrefix(r) <= k
    ensures d in m && m[d].round == r && k == RoundKey(r, d) && ExtractDigest(k, RoundPrefix(r)) == Some(d)
  {
    OtherKeysNotSelected(r, 0);
    assert Owned(m, k);
    d :| d in m && Owns(m[d], k);
    OtherKeysNotSelected(r, d);
    PrefixSelectsRound(r, m[d].round, d);
    RoundKeyParses(r, d);
  }

  lemma IndexKeysStored(c: Codec, db: Db, m: Contents, k: Bytes) returns (d: Hash)
    requires Represents(c, db, m) && k in db && ROUND_PREFIX <= k
    ensures d in m && k == RoundKey(m[d].round, d) && ParseRoundKey(k) == Some((m[d].round, d))
  {
    FamiliesDisjoint(0, 0, 0);
    assert Owned(m, k);
    d :| d in m && Owns(m[d], k);
    FamiliesDisjoint(m[d].round, d, d);
    RoundKeyParses(m[d].round, d);
  }

  // ---- Saving ------------------------------------------------------------------------------------------

  ghost function SavedDb(c: Codec, db: Db, b: Batch): Db {
    var db' := db[BatchKey(b.digest) := c.encode(b)][RoundKey(b.round, b.digest) := []];
    if b.round > Highest(db) then db'[HIGHEST_KEY := PutBE(b.round, ROUND_SIZE)] else db'
  }

  lemma SavedHighest(c: Codec, db: Db, b: Batch)
    requires InWidth(b)
    ensures Highest(SavedDb(c, db, b)) == if b.round > Highest(db) then b.round else Highest(db)
  {
    FamiliesDisjoint(b.round, b.digest, b.digest);
    BERoundTrip(b.round, ROUND_SIZE);
    assert PutBE(b.round, ROUND_SIZE)[..ROUND_SIZE] == PutBE(b.round, ROUND_SIZE);
  }

  lemma SavedOthers(c: Codec, db: Db, b: Batch, x: Batch)
    requires InWidth(b) && InWidth(x) && Stored(c, db, x) && x.digest != b.digest
    ensures Stored(c, SavedDb(c, db, b), x)
  {
    SavedHighest(c, db, b);
    FamiliesDisjoint(b.round, b.digest, x.digest);
    FamiliesDisjoint(x.round, x.digest, b.digest);
    FamiliesDisjoint(x.round, x.digest, x.digest);
    if BatchKey(x.digest) == BatchKey(b.digest) {
      BatchKeyInjective(x.digest, b.digest);
    }
  }

  lemma SavedOwn(c: Codec, db: Db, b: Batch)
    requires InWidth(b)
    ensures Stored(c, SavedDb(c, db, b), b)
  {
    SavedHighest(c, db, b);
    FamiliesDisjoint(b.round, b.digest, b.digest);
  }

  // Saving a new batch refines the abstract save.
  lemma SaveRepresents(c: Codec, db: Db, m: Contents, b: Batch)
    requires Represents(c, db, m) && InWidth(b) && b.digest !in m
    ensures Represents(c, SavedDb(c, db, b), SaveSpec(m, b))
  {
    var db', m' := SavedDb(c, db, b), SaveSpec(m, b);
    SavedOwn(c, db, b);
    forall d | d in m' ensures InWidth(m'[d]) && Stored(c, db', m'[d]) {
      if d != b.digest {
        SavedOthers(c, db, b, m[d]);
      }
    }
    forall k | k in db' ensures Owned(m', k) {
      if k in db && k != HIGHEST_KEY {
        assert Owned(m, k);
        var d :| d in m && Owns(m[d], k);
        assert d in m' && Owns(m'[d], k);
      } else if k != HIGHEST_KEY {
        assert b.digest in m' && Owns(m'[b.digest], k);
      }
    }
  }

  // ---- Deleting ------------------------------------------------------------------------------------------

  // The keys of the given batches.
  ghost predicate KeyOfSome(m: Contents, gone: set<Hash>, k: Bytes) {
    exists d :: d in gone && d in m && Owns(m[d], k)
  }

  // Taking out exactly the keys of some batches takes out those batches.
  lemma DeleteRepresents(c: Codec, db: Db, m: Contents, gone: set<Hash>, keys: set<Bytes>)
    requires Represents(c, db, m) && (forall k :: k in keys <==> KeyOfSome(m, gone, k))
    ensures Represents(c, db - keys, m - gone)
  {
    var db', m' := db - keys, m - gone;
    assert HIGHEST_KEY !in keys by {
      forall d | d in m ensures !Owns(m[d], HIGHEST_KEY) {
        FamiliesDisjoint(m[d].round, d, d);
      }
    }
    forall d | d in m' ensures InWidth(m'[d]) && Stored(c, db', m'[d]) {
      KeysAreOwn(m, gone, d);
    }
    forall k | k in db' ensures Owned(m', k) {
      assert Owned(m, k);
      if k != HIGHEST_KEY {
        var d :| d in m && Owns(m[d], k);
        assert d !in gone;
        assert d in m' && Owns(m'[d], k);
      }
    }
  }

  // No batch owns another's keys.
  lemma KeysAreOwn(m: Contents, gone: set<Hash>, d: Hash)
    requires Keyed(m) && (forall x :: x in m ==> InWidth(m[x])) && d in m && d !in gone
    ensures !KeyOfSome(m, gone, BatchKey(d)) && !KeyOfSome(m, gone, RoundKey(m[d].round, d))
  {
    forall x | x in gone && x in m ensures !Owns(m[x], BatchKey(d)) && !Owns(m[x], RoundKey(m[d].round, d)) {
      FamiliesDisjoint(m[x].round, x, d);
      FamiliesDisjoint(m[d].round, d, x);
      if BatchKey(d) == BatchKey(x) {
        BatchKeyInjective(d, x);
      }
      RoundKeyParses(m[x].round, x);
      RoundKeyParses(m[d].round, d);
    }
  }

  // ---- The program -------------------------------------------------------------------------------------------

  class LevelDBBatchStore {
    const codec: Codec
    var db: Db
    // The batches the database represents, and the highest round ever saved.
    ghost var contents: Contents
    ghost var top: nat

    ghost predicate Valid()
      reads this
    {
      Invertible(codec) && Represents(codec, db, contents) && Highest(db) == top
    }

    constructor (codec: Codec)
      requires Invertible(codec)
      ensures Valid() && contents == map[] && top == 0
    {
      this.codec, db, contents, top := codec, map[], map[], 0;
    }

    method SaveBatch(b: Batch)
      requires Valid() && InWidth(b)
      modifies this
      ensures Valid() && contents == SaveSpec(old(contents), b)
      ensures top == if b.digest !in old(contents) && b.round > old(top) then b.round else old(top)
    {
      BatchKeyStored(codec, db, contents, b.digest);
      if BatchKey(b.digest) in db {
        return;
      }
      SaveRepresents(codec, db, contents, b);
      var highest := Highest(db);
      db := db[BatchKey(b.digest) := codec.encode(b)][RoundKey(b.round, b.digest) := []];
      if b.round > highest {
        db := db[HIGHEST_KEY := PutBE(b.round, ROUND_SIZE)];
      }
      SavedHighest(codec, old(db), b);
      contents, top := SaveSpec(contents, b), Highest(db);
    }

    method GetBatch(d: Hash) returns (b: Option<Batch>)
      requires Valid() && IsDigest(d)
      ensures b == if d in contents then Some(contents[d]) else None
    {
      BatchKeyStored(codec, db, contents, d);
      if BatchKey(d) !in db {
        return None;
      }
      return codec.decode(db[BatchKey(d)]);
    }

    method HasBatch(d: Hash) returns (r: bool)
      requires Valid() && IsDigest(d)
      ensures r <==> d in contents
    {
      BatchKeyStored(codec, db, contents, d);
      return BatchKey(d) in db;
    }

    // The highest round ever saved; no stored batch is above it.
    method HighestRound() returns (r: nat)
      requires Valid()
      ensures r == top
      ensures forall d :: d in contents ==> contents[d].round <= r
    {
      return Highest(db);
    }

    method GetBatchesByRound(r: nat) returns (out: seq<Batch>)
      requires Valid() && IsRound(r)
      ensures Elems(out) == OfRound(contents, r) && NoDup(out)
    {
      var prefix := RoundPrefix(r);
      var left := set k | k in db && prefix <= k;
      out := [];
      ghost var rest := RoundSelected(codec, db, contents, r);
      while left != {}
        invariant left == KeysFor(contents, rest) && rest <= DigestsOf(contents, r)
        invariant Fetched(contents, out, DigestsOf(contents, r) - rest)
        decreases left
      {
        var k := Pick(left);
        ghost var d := TakeKey(contents, rest, k);
        var b := BatchAt(k, r, d);
        if b.Some? {
          out := out + [b.value];
        }
        FetchOne(contents, out, DigestsOf(contents, r), rest, d);
        rest := rest - {d};
        left := left - {k};
      }
      NoKeysLeft(contents, rest);
      assert DigestsOf(contents, r) - rest == DigestsOf(contents, r);
      FetchedAll(contents, r, out);
    }

    // The batch a round key points to.
    method BatchAt(k: Bytes, r: nat, ghost d: Hash) returns (b: Option<Batch>)
      requires Valid() && IsRound(r) && d in contents && k == RoundKey(r, d)
      ensures b == Some(contents[d])
    {
      RoundKeyParses(r, d);
      var digest := ExtractDigest(k, RoundPrefix(r));
      if digest.None? {
        return None;
      }
      b := GetBatch(digest.value);
    }

    method DeleteBatchesBefore(cutoff: nat)
      requires Valid()
      modifies this
      ensures Valid() && contents == DeleteBeforeSpec(old(contents), cutoff) && top == old(top)
    {
      ghost var gone;
      var keys;
      keys, gone := OldKeys(cutoff);
      DeleteRepresents(codec, db, contents, gone, keys);
      db := db - keys;
      contents := contents - gone;
      OlderDeleted(old(contents), cutoff);
    }

    // The keys of every batch of an old round.
    method OldKeys(cutoff: nat) returns (keys: set<Bytes>, ghost gone: set<Hash>)
      requires Valid()
      ensures gone == Older(contents, contents.Keys, cutoff)
      ensures forall k :: k in keys <==> KeyOfSome(contents, gone, k)
    {
      var left := set k | k in db && ROUND_PREFIX <= k;
      ghost var rest := contents.Keys;
      IndexSelected(codec, db, contents);
      keys, gone := {}, {};
      while left != {}
        invariant left == KeysFor(contents, rest) && rest <= contents.Keys
        invariant gone == Older(contents, contents.Keys - rest, cutoff)
        invariant forall k :: k in keys <==> KeyOfSome(contents, gone, k)
        decreases left
      {
        var k := Pick(left);
        ghost var d := TakeKey(contents, rest, k);
        RoundKeyParses(contents[d].round, d);
        var parsed := ParseRoundKey(k);
        OlderStep(contents, rest, d, cutoff);
        if parsed.Some? && parsed.value.0 < cutoff {
          KeysGrow(contents, gone, keys, d);
          keys := keys + {BatchKey(parsed.value.1), k};
          gone := gone + {d};
        }
        rest := rest - {d};
        left := left - {k};
      }
      NoKeysLeft(contents, rest);
    }
  }

  ghost function DigestsOf(m: Contents, r: nat): set<Hash> { set d | d in m && m[d].round == r }

  ghost function Older(m: Contents, ds: set<Hash>, cutoff: nat): set<Hash> {
    set d | d in ds && d in m && m[d].round < cutoff
  }

  // The round keys of the given batches.
  ghost function KeysFor(m: Contents, ds: set<Hash>): set<Bytes> {
    set d | d in ds && d in m :: RoundKey(m[d].round, d)
  }

  ghost predicate InWidths(m: Contents) { Keyed(m) && forall d :: d in m ==> InWidth(m[d]) }

  lemma RoundSelected(c: Codec, db: Db, m: Contents, r: nat) returns (ds: set<Hash>)
    requires Represents(c, db, m) && IsRound(r)
    ensures ds == DigestsOf(m, r) && (set k | k in db && RoundPrefix(r) <= k) == KeysFor(m, ds)
  {
    ds := DigestsOf(m, r);
    forall k | k in db && RoundPrefix(r) <= k ensures k in KeysFor(m, ds) {
      var d := RoundKeysStored(c, db, m, r, k);
      assert d in ds;
    }
    forall k | k in KeysFor(m, ds) ensures k in db && RoundPrefix(r) <= k {
      var d :| d in ds && d in m && k == RoundKey(m[d].round, d);
      assert Stored(c, db, m[d]);
      PrefixSelectsRound(r, r, d);
    }
  }

  lemma IndexSelected(c: Codec, db: Db, m: Contents)
    requires Represents(c, db, m)
    ensures (set k | k in db && ROUND_PREFIX <= k) == KeysFor(m, m.Keys)
  {
    forall k | k in db && ROUND_PREFIX <= k ensures k in KeysFor(m, m.Keys) {
      var d := IndexKeysStored(c, db, m, k);
      assert d in m.Keys;
    }
    forall k | k in KeysFor(m, m.Keys) ensures k in db && ROUND_PREFIX <= k {
      var d :| d in m.Keys && d in m && k == RoundKey(m[d].round, d);
      assert Stored(c, db, m[d]);
      FamiliesDisjoint(m[d].round, d, d);
    }
  }

  // Each round key belongs to one batch.
  lemma TakeKey(m: Contents, ds: set<Hash>, k: Bytes) returns (d: Hash)
    requires InWidths(m) && k in KeysFor(m, ds)
    ensures d in ds && d in m && k == RoundKey(m[d].round, d) && KeysFor(m, ds - {d}) == KeysFor(m, ds) - {k}
  {
    d :| d in ds && d in m && k == RoundKey(m[d].round, d);
    RoundKeyParses(m[d].round, d);
    forall x | x in ds && x in m && x != d ensures RoundKey(m[x].round, x) != k {
      RoundKeyParses(m[x].round, x);
    }
    SameKeys(m, ds, d, k);
  }

  lemma SameKeys(m: Contents, ds: set<Hash>, d: Hash, k: Bytes)
    requires d in ds && d in m && k == RoundKey(m[d].round, d)
    requires forall x :: x in ds && x in m && x != d ==> RoundKey(m[x].round, x) != k
    ensures KeysFor(m, ds - {d}) == KeysFor(m, ds) - {k}
  {}

  lemma NoKeysLeft(m: Contents, ds: set<Hash>)
    requires ds <= m.Keys && KeysFor(m, ds) == {}
    ensures ds == {}
  {
    assert forall d :: d in ds ==> RoundKey(m[d].round, d) in KeysFor(m, ds);
    assert forall d :: d !in ds;
  }

  lemma OlderDeleted(m: Contents, cutoff: nat)
    ensures m - Older(m, m.Keys, cutoff) == DeleteBeforeSpec(m, cutoff)
  {}

  lemma OlderStep(m: Contents, rest: set<Hash>, d: Hash, cutoff: nat)
    requires d in rest && rest <= m.Keys
    ensures Older(m, m.Keys - (rest - {d}), cutoff) ==
      if m[d].round < cutoff then Older(m, m.Keys - rest, cutoff) + {d} else Older(m, m.Keys - rest, cutoff)
  {}

  // out lists the batches with the given digests, once each.
  ghost predicate Fetched(m: Contents, out: seq<Batch>, ds: set<Hash>) {
    NoDup(out) && forall b :: b in out <==> b.digest in ds && b.digest in m && m[b.digest] == b
  }

  lemma FetchOne(m: Contents, out: seq<Batch>, all: set<Hash>, rest: set<Hash>, d: Hash)
    requires d in rest && rest <= all && d in m && m[d].digest == d && out != [] && out[|out| - 1] == m[d]
    requires Fetched(m, out[..|out| - 1], all - rest)
    ensures Fetched(m, out, all - (rest - {d}))
  {
    var front := out[..|out| - 1];
    assert out == front + [m[d]];
    assert m[d] !in front;
  }

  lemma FetchedAll(m: Contents, r: nat, out: seq<Batch>)
    requires Keyed(m) && Fetched(m, out, DigestsOf(m, r))
    ensures Elems(out) == OfRound(m, r) && NoDup(out)
  {}

  lemma KeysGrow(m: Contents, gone: set<Hash>, keys: set<Bytes>, d: Hash)
    requires d in m && m[d].digest == d && forall k :: k in keys <==> KeyOfSome(m, gone, k)
    ensures forall k :: k in keys + {BatchKey(d), RoundKey(m[d].round, d)} <==> KeyOfSome(m, gone + {d}, k)
  {
    forall k ensures k in keys + {BatchKey(d), RoundKey(m[d].round, d)} <==> KeyOfSome(m, gone + {d}, k) {
      if k in keys {
        var x :| x in gone && x in m && Owns(m[x], k);
        assert x in gone + {d};
      }
      if Owns(m[d], k) {
        assert d in gone + {d};
      }
    }
  }
}
