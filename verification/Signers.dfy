// The signer mask of a certificate (types/certificate.go): a bit set in 64-bit words, indexed by
// 16-bit validator indices.
module Signers {
  const MASK_BITS: bv16 := 256
  const MASK_WORDS := 4

  // ---- Words and bits -------------------------------------------------------------------------------

  function WordOf(i: bv16): nat { (i >> 6) as nat }

  function Shift(i: bv16): bv64 { (i & 63) as bv64 }

  function Bit(k: bv64): bv64
    requires k < 64
  {
    1 << k
  }

  // Word and shift together determine the index.
  lemma IndexDetermined(i: bv16, j: bv16)
    requires WordOf(i) == WordOf(j) && Shift(i) == Shift(j)
    ensures i == j
  {
    WordBack(i >> 6);
    WordBack(j >> 6);
    LowBits(i & 63, j & 63);
    assert i == ((i >> 6) << 6) | (i & 63);
    assert j == ((j >> 6) << 6) | (j & 63);
  }

  lemma WordBack(w: bv16)
    ensures (w as nat) as bv16 == w
  {}

  lemma LowBits(a: bv16, b: bv16)
    requires a as bv64 == b as bv64
    ensures a == b
  {}

  lemma BitBound(i: bv16)
    ensures Shift(i) < 64
  {}

  function BitOf(i: bv16): bv64 {
    BitBound(i);
    Bit(Shift(i))
  }

  lemma WordBound(i: bv16)
    ensures WordOf(i) < MASK_WORDS <==> i < MASK_BITS
  {}

  // Setting bit k changes no other.
  lemma SetBit(x: bv64, k: bv64, j: bv64)
    requires k < 64 && j < 64
    ensures (x | Bit(k)) & Bit(j) != 0 <==> x & Bit(j) != 0 || j == k
  {}

  // ---- Counting bits ---------------------------------------------------------------------------------

  // The number of one bits.
  ghost function Ones(x: bv64): nat
    decreases x
  {
    if x == 0 then 0 else Low(x) + Ones(x >> 1)
  }

  ghost function Width(x: bv64): nat
    decreases x
  {
    if x == 0 then 0 else 1 + Width(x >> 1)
  }

  lemma WidthStep(x: bv64)
    requires x != 0
    ensures Width(x >> 1) < Width(x)
  {}

  ghost function Low(x: bv64): nat { if x & 1 == 1 then 1 else 0 }

  lemma OnesStep(x: bv64)
    ensures Ones(x) == Low(x) + Ones(x >> 1)
  {}

  lemma OddClear(x: bv64)
    requires x & 1 == 1
    ensures (x & (x - 1)) >> 1 == x >> 1 && (x & (x - 1)) & 1 == 0
  {}

  lemma EvenClear(x: bv64)
    requires x != 0 && x & 1 == 0
    ensures x >> 1 != 0 && (x & (x - 1)) >> 1 == (x >> 1) & ((x >> 1) - 1) && (x & (x - 1)) & 1 == 0
  {}

  lemma HalfNonZero(x: bv64)
    requires x != 0 && x & 1 == 0
    ensures x >> 1 != 0
  {}

  lemma ClearOdd(x: bv64)
    requires x & 1 == 1
    ensures Ones(x & (x - 1)) == Ones(x) - 1
  {
    OddClear(x);
    OnesStep(x);
    OnesStep(x & (x - 1));
  }

  lemma ClearEven(x: bv64)
    requires x != 0 && x & 1 == 0 && Ones((x >> 1) & ((x >> 1) - 1)) == Ones(x >> 1) - 1
    ensures Ones(x & (x - 1)) == Ones(x) - 1
  {
    EvenClear(x);
    OnesStep(x);
    OnesStep(x & (x - 1));
  }

  // x & (x - 1) has one bit less.
  lemma {:induction false} ClearLowest(x: bv64)
    requires x != 0
    ensures Ones(x & (x - 1)) == Ones(x) - 1
    decreases Width(x)
  {
    if x & 1 == 1 {
      ClearOdd(x);
    } else {
      WidthStep(x);
      HalfNonZero(x);
      ClearLowest(x >> 1);
      ClearEven(x);
    }
  }

  // Brian Kernighan's loop.
  method PopCount(word: bv64) returns (count: nat)
    ensures count == Ones(word)
  {
    var x := word;
    count := 0;
    while x != 0
      invariant count + Ones(x) == Ones(word)
      decreases Ones(x)
    {
      ClearLowest(x);
      x := x & (x - 1);
      count := count + 1;
    }
  }

  // ---- Setting a bit ---------------------------------------------------------------------------------

  // y has the bits of x and those of m, and none is both.
  predicate Joins(x: bv64, m: bv64, y: bv64) { x & m == 0 && y == x | m }

  lemma JoinsHalves(x: bv64, m: bv64, y: bv64)
    requires Joins(x, m, y)
    ensures Joins(x >> 1, m >> 1, y >> 1)
  {}

  lemma JoinsLow(x: bv64, m: bv64, y: bv64)
    requires Joins(x, m, y)
    ensures Low(y) == Low(x) + Low(m)
  {}

  lemma JoinsNone(x: bv64, y: bv64)
    requires Joins(x, 0, y)
    ensures y == x
  {}

  lemma OnesOfHalves(x: bv64, m: bv64, y: bv64)
    requires Low(y) == Low(x) + Low(m) && Ones(y >> 1) == Ones(x >> 1) + Ones(m >> 1)
    ensures Ones(y) == Ones(x) + Ones(m)
  {
    OnesStep(x);
    OnesStep(m);
    OnesStep(y);
  }

  // Words with no bit in common add up.
  lemma {:induction false} OnesAdd(x: bv64, m: bv64, y: bv64)
    requires Joins(x, m, y)
    ensures Ones(y) == Ones(x) + Ones(m)
    decreases Width(m)
  {
    if m == 0 {
      JoinsNone(x, y);
    } else {
      WidthStep(m);
      JoinsHalves(x, m, y);
      OnesAdd(x >> 1, m >> 1, y >> 1);
      JoinsLow(x, m, y);
      OnesOfHalves(x, m, y);
    }
  }

  lemma BitHalf(k: bv64)
    requires 0 < k < 64
    ensures Bit(k) >> 1 == Bit(k - 1) && Bit(k) & 1 == 0
  {}

  ghost function Steps(k: bv64): nat
    decreases k
  {
    if k == 0 then 0 else 1 + Steps(k - 1)
  }

  lemma {:induction false} BitIsOne(k: bv64)
    requires k < 64
    ensures Ones(Bit(k)) == 1
    decreases Steps(k)
  {
    if k == 0 {
      assert Ones(1) == 1;
    } else {
      BitHalf(k);
      BitIsOne(k - 1);
      OnesStep(Bit(k));
    }
  }

  lemma BitIsLone(k: bv64)
    requires k < 64
    ensures Bit(k) & (Bit(k) - 1) == 0
  {}

  lemma SetAgain(x: bv64, m: bv64)
    requires m & (m - 1) == 0 && x & m != 0
    ensures x | m == x
  {}

  // ---- The bit set -----------------------------------------------------------------------------------

  predicate HasBit(x: bv64, i: bv16) { x & BitOf(i) != 0 }

  predicate IsSet(words: seq<bv64>, i: bv16) {
    WordOf(i) < |words| && HasBit(words[WordOf(i)], i)
  }

  // The bits set, over all words.
  ghost function TotalOnes(words: seq<bv64>): nat {
    if words == [] then 0 else TotalOnes(words[..|words| - 1]) + Ones(words[|words| - 1])
  }

  // A bit beyond the last word is silently dropped.
  ghost function WithBit(words: seq<bv64>, i: bv16): seq<bv64> {
    if WordOf(i) < |words| then words[WordOf(i) := words[WordOf(i)] | BitOf(i)] else words
  }

  method Set(words: array<bv64>, i: bv16)
    modifies words
    ensures words[..] == WithBit(old(words[..]), i)
  {
    var w := WordOf(i);
    if w < words.Length {
      words[w] := words[w] | BitOf(i);
    }
  }

  lemma SameShift(i: bv16, j: bv16)
    requires WordOf(i) == WordOf(j)
    ensures Shift(i) == Shift(j) <==> i == j
  {
    if Shift(i) == Shift(j) {
      IndexDetermined(i, j);
    }
  }

  lemma SetOther(x: bv64, i: bv16, j: bv16)
    requires Shift(i) != Shift(j)
    ensures HasBit(x | BitOf(i), j) <==> HasBit(x, j)
  {
    BitBound(i);
    BitBound(j);
    SetBit(x, Shift(i), Shift(j));
  }

  lemma SetBeside(x: bv64, i: bv16, j: bv16)
    requires WordOf(i) == WordOf(j) && i != j
    ensures HasBit(x | BitOf(i), j) <==> HasBit(x, j)
  {
    SameShift(i, j);
    SetOther(x, i, j);
  }

  lemma SetSame(x: bv64, i: bv16)
    ensures HasBit(x | BitOf(i), i)
  {
    BitBound(i);
    SetBit(x, Shift(i), Shift(i));
  }

  lemma SetInWord(x: bv64, i: bv16, j: bv16)
    requires WordOf(i) == WordOf(j)
    ensures HasBit(x | BitOf(i), j) <==> HasBit(x, j) || i == j
  {
    if i == j {
      SetSame(x, i);
    } else {
      SetBeside(x, i, j);
    }
  }

  // Exactly the given bit is added, where there is a word for it.
  lemma SetIsLocal(words: seq<bv64>, i: bv16, j: bv16)
    ensures IsSet(WithBit(words, i), j) <==> IsSet(words, j) || (j == i && WordOf(i) < |words|)
  {
    if WordOf(i) == WordOf(j) < |words| {
      SetInWord(words[WordOf(i)], i, j);
    }
  }

  lemma {:induction false} TotalUpdate(words: seq<bv64>, w: nat, x: bv64)
    requires w < |words|
    ensures TotalOnes(words[w := x]) == TotalOnes(words) - Ones(words[w]) + Ones(x)
    decreases |words|
  {
    var front := words[..|words| - 1];
    if w == |words| - 1 {
      assert words[w := x][..|words| - 1] == front;
    } else {
      TotalUpdate(front, w, x);
      assert words[w := x][..|words| - 1] == front[w := x];
    }
  }

  lemma OnesOfSet(x: bv64, i: bv16)
    ensures Ones(x | BitOf(i)) == Ones(x) + (if HasBit(x, i) then 0 else 1)
  {
    BitBound(i);
    var m := BitOf(i);
    if x & m != 0 {
      BitIsLone(Shift(i));
      SetAgain(x, m);
    } else {
      OnesAdd(x, m, x | m);
      BitIsOne(Shift(i));
    }
  }

  lemma SetCounts(words: seq<bv64>, i: bv16)
    ensures TotalOnes(WithBit(words, i)) ==
      TotalOnes(words) + (if WordOf(i) < |words| && !IsSet(words, i) then 1 else 0)
  {
    if WordOf(i) < |words| {
      var x := words[WordOf(i)];
      TotalUpdate(words, WordOf(i), x | BitOf(i));
      OnesOfSet(x, i);
    }
  }

  // The number of bits set, over all words.
  method Count(words: array<bv64>) returns (count: nat)
    ensures count == TotalOnes(words[..])
  {
    count := 0;
    for k := 0 to words.Length
      invariant count == TotalOnes(words[..k])
    {
      var n := PopCount(words[k]);
      assert words[..k + 1][..k] == words[..k];
      count := count + n;
    }
    assert words[..words.Length] == words[..];
  }

  // ---- The mask of a certificate ---------------------------------------------------------------------

  ghost function MaskOf(signers: seq<bv16>): seq<bv64> {
    if signers == [] then seq(MASK_WORDS, _ => 0) else WithBit(MaskOf(signers[..|signers| - 1]), signers[|signers| - 1])
  }

  method SignerMask(signers: seq<bv16>) returns (mask: array<bv64>)
    ensures mask[..] == MaskOf(signers)
  {
    mask := new bv64[MASK_WORDS](_ => 0);
    for k := 0 to |signers|
      invariant fresh(mask) && mask[..] == MaskOf(signers[..k])
    {
      assert signers[..k + 1][..k] == signers[..k];
      Set(mask, signers[k]);
    }
    assert signers[..|signers|] == signers;
  }

  ghost function Within(signers: seq<bv16>): set<bv16> { set v | v in signers && v < MASK_BITS }

  lemma {:induction false} NoneSet(words: seq<bv64>)
    requires forall k :: 0 <= k < |words| ==> words[k] == 0
    ensures TotalOnes(words) == 0
    decreases |words|
  {
    if words != [] {
      NoneSet(words[..|words| - 1]);
    }
  }

  lemma ZeroHasNone(m: bv64)
    ensures 0 & m == 0
  {}

  // The mask says who signed, and counts them, for indices within its width.
  lemma {:induction false} MaskSays(signers: seq<bv16>, v: bv16)
    ensures |MaskOf(signers)| == MASK_WORDS
    ensures IsSet(MaskOf(signers), v) <==> v in signers && v < MASK_BITS
    decreases |signers|
  {
    if signers == [] {
      ZeroHasNone(BitOf(v));
    } else {
      var front, last := signers[..|signers| - 1], signers[|signers| - 1];
      MaskSays(front, v);
      SetIsLocal(MaskOf(front), last, v);
      WordBound(last);
      assert signers == front + [last];
    }
  }

  lemma {:induction false} MaskCounts(signers: seq<bv16>)
    ensures TotalOnes(MaskOf(signers)) == |Within(signers)|
    decreases |signers|
  {
    if signers == [] {
      NoneSet(MaskOf(signers));
    } else {
      var front, last := signers[..|signers| - 1], signers[|signers| - 1];
      MaskCounts(front);
      MaskSays(front, last);
      SetCounts(MaskOf(front), last);
      WordBound(last);
      assert signers == front + [last];
      assert Within(signers) == Within(front) + (if last < MASK_BITS then {last} else {});
    }
  }

  // HasVoteFrom, which reads the mask, is right about every validator exactly when no signer has an
  // index past its width.
  lemma MaskIsExactIff(signers: seq<bv16>)
    ensures (forall v: bv16 :: IsSet(MaskOf(signers), v) <==> v in signers) <==>
      forall v :: v in signers ==> v < MASK_BITS
  {
    forall v: bv16 ensures IsSet(MaskOf(signers), v) <==> v in signers && v < MASK_BITS {
      MaskSays(signers, v);
    }
  }
}
