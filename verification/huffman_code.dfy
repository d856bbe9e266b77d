/** Canonical prefix codes, determined by the lengths of the codes alone (section 3.2.2 of RFC 1951). */
module HuffmanCode {
  import opened Bits

  const MAX_BITS: nat := 15

  /** A length for each symbol; 0 for a symbol without a code. */
  predicate Lengths(list: seq<nat>) {
    |list| <= 288 && forall i :: 0 <= i < |list| ==> list[i] <= MAX_BITS
  }

  /** How many of the first n symbols have codes of s bits. */
  function Count(list: seq<nat>, s: nat, n: nat): (c: nat)
    requires n <= |list|
    ensures c <= n
  {
    if n == 0 then 0 else Count(list, s, n - 1) + if list[n - 1] == s then 1 else 0
  }

  function Size(list: seq<nat>, s: nat): nat {
    if s == 0 then 0 else Count(list, s, |list|)
  }

  /** The share of all codes of s bits that begin with, or are, a code of at most s bits. */
  function UsedUp(list: seq<nat>, s: nat): nat {
    if s == 0 then 0 else 2 * UsedUp(list, s - 1) + Size(list, s)
  }

  /** The first code of s bits. */
  function First(list: seq<nat>, s: nat): nat
    requires s > 0
  {
    2 * UsedUp(list, s - 1)
  }

  /** The number of symbols with codes of fewer than s bits. */
  function FirstSymbol(list: seq<nat>, s: nat): nat {
    if s <= 1 then 0 else FirstSymbol(list, s - 1) + Size(list, s - 1)
  }

  predicate HasCode(list: seq<nat>, i: nat) {
    i < |list| && 0 < list[i] <= MAX_BITS
  }

  /** The code of a symbol: codes of the same length are given out in the order of the symbols. */
  function Code(list: seq<nat>, i: nat): nat
    requires HasCode(list, i)
  {
    First(list, list[i]) + Count(list, list[i], i)
  }

  /** The code as the stream delivers it. */
  function CodeBits(list: seq<nat>, i: nat): seq<bool>
    requires HasCode(list, i)
  {
    MsbBits(Code(list, i), list[i])
  }

  /** The symbol's place in the order of codes. */
  function Position(list: seq<nat>, i: nat): nat
    requires HasCode(list, i)
  {
    FirstSymbol(list, list[i]) + Count(list, list[i], i)
  }

  /** The lengths leave room for all the codes (Kraft's inequality). */
  predicate Fits(list: seq<nat>) {
    UsedUp(list, MAX_BITS) <= Pow2(MAX_BITS)
  }

  // ----- Room -----

  lemma {:induction false} UsedUpBound(list: seq<nat>, s: nat, t: nat)
    requires s <= t && UsedUp(list, t) <= Pow2(t)
    ensures UsedUp(list, s) <= Pow2(s)
    decreases t - s
  {
    if s < t {
      UsedUpBound(list, s, t - 1);
    }
  }

  lemma {:induction false} CountMonotone(list: seq<nat>, s: nat, m: nat, n: nat)
    requires m <= n <= |list|
    ensures Count(list, s, m) <= Count(list, s, n)
    decreases n
  {
    if m < n {
      CountMonotone(list, s, m, n - 1);
    }
  }

  /** A symbol's rank among those with codes of its length. */
  lemma RankInSize(list: seq<nat>, i: nat)
    requires HasCode(list, i)
    ensures Count(list, list[i], i) < Size(list, list[i])
    ensures First(list, list[i]) <= Code(list, i) < UsedUp(list, list[i])
  {
    CountMonotone(list, list[i], i + 1, |list|);
  }

  lemma SameLengthOrdered(list: seq<nat>, i: nat, j: nat)
    requires HasCode(list, i) && HasCode(list, j) && list[i] == list[j] && i < j
    ensures Count(list, list[i], i) < Count(list, list[j], j)
  {
    CountMonotone(list, list[i], i + 1, j);
  }

  // ----- Codes as intervals of 16-bit numbers -----

  /** Where the codes of up to s bits end among 16-bit numbers. */
  function End(list: seq<nat>, s: nat): nat
    requires s <= 16
  {
    Shl(UsedUp(list, s), 16 - s)
  }

  lemma {:induction false} EndMonotone(list: seq<nat>, s: nat, t: nat)
    requires s <= t <= 16
    ensures End(list, s) <= End(list, t)
    decreases t - s
  {
    if s < t {
      EndMonotone(list, s, t - 1);
      EndStep(list, t);
    }
  }

  /** The codes of s bits begin where the shorter ones end. */
  lemma EndStep(list: seq<nat>, s: nat)
    requires 1 <= s <= 16
    ensures Shl(First(list, s), 16 - s) == End(list, s - 1) <= End(list, s)
  {
    ShlDouble(UsedUp(list, s - 1), 16 - s);
    ShlMonotone(First(list, s), UsedUp(list, s), 16 - s);
  }

  lemma EndBound(list: seq<nat>, s: nat)
    requires Fits(list) && s <= MAX_BITS
    ensures UsedUp(list, s) <= Pow2(s) && End(list, s) <= Pow2(16)
  {
    UsedUpBound(list, s, MAX_BITS);
    ShlMonotone(UsedUp(list, s), Pow2(s), 16 - s);
    ShlPow2(s, 16 - s);
  }

  /** A 16-bit number begins with the symbol's code. */
  predicate Begins(list: seq<nat>, i: nat, k: nat) {
    HasCode(list, i) && Shr(k, 16 - list[i]) == Code(list, i)
  }

  /** ... iff the stream it is read from does. */
  lemma BeginsIsPrefix(list: seq<nat>, i: nat, bits: seq<bool>)
    requires HasCode(list, i) && Fits(list) && |bits| == 16
    ensures Begins(list, i, Msb(bits)) <==> CodeBits(list, i) == bits[..list[i]]
  {
    var s := list[i];
    ShrOfMsb(bits, 16 - s);
    MsbBitsOfMsb(bits[..s]);
    RankInSize(list, i);
    EndBound(list, s);
    MsbOfMsbBits(Code(list, i), s);
  }

  lemma BeginsInside(list: seq<nat>, i: nat, k: nat)
    requires Begins(list, i, k)
    ensures End(list, list[i] - 1) <= k < End(list, list[i])
  {
    var s := list[i];
    RankInSize(list, i);
    ShrIs(k, 16 - s, Code(list, i));
    EndStep(list, s);
    ShlMonotone(First(list, s), Code(list, i), 16 - s);
    ShlMonotone(Code(list, i) + 1, UsedUp(list, s), 16 - s);
  }

  /** No number begins with two codes. */
  lemma PrefixFree(list: seq<nat>, i: nat, j: nat, k: nat)
    requires Begins(list, i, k) && Begins(list, j, k)
    ensures i == j
  {
    BeginsInside(list, i, k);
    BeginsInside(list, j, k);
    if list[i] < list[j] {
      EndMonotone(list, list[i], list[j] - 1);
    } else if list[j] < list[i] {
      EndMonotone(list, list[j], list[i] - 1);
    } else if i < j {
      SameLengthOrdered(list, i, j);
    } else if j < i {
      SameLengthOrdered(list, j, i);
    }
  }

  /** The symbol of a given rank among those with codes of s bits. */
  lemma {:induction false} SymbolOfRank(list: seq<nat>, s: nat, rank: nat, n: nat) returns (i: nat)
    requires n <= |list| && rank < Count(list, s, n)
    ensures i < n && list[i] == s && Count(list, s, i) == rank
  {
    if rank < Count(list, s, n - 1) {
      i := SymbolOfRank(list, s, rank, n - 1);
    } else {
      i := n - 1;
    }
  }

  /** A number between the ends for s - 1 and s bits begins with a code of s bits. */
  lemma SomeCode(list: seq<nat>, s: nat, k: nat) returns (i: nat)
    requires 1 <= s <= MAX_BITS && End(list, s - 1) <= k < End(list, s)
    ensures Begins(list, i, k) && list[i] == s
    ensures First(list, s) <= Shr(k, 16 - s)
    ensures Position(list, i) == Shr(k, 16 - s) - First(list, s) + FirstSymbol(list, s)
  {
    var c := Shr(k, 16 - s);
    ShrIs(k, 16 - s, c);
    EndStep(list, s);
    if c < First(list, s) {
      ShlMonotone(c + 1, First(list, s), 16 - s);
    }
    if c >= UsedUp(list, s) {
      ShlMonotone(UsedUp(list, s), c, 16 - s);
    }
    i := SymbolOfRank(list, s, c - First(list, s), |list|);
  }

  // ----- The order of codes -----

  lemma {:induction false} FirstSymbolMonotone(list: seq<nat>, s: nat, t: nat)
    requires 1 <= s < t
    ensures FirstSymbol(list, s) + Size(list, s) <= FirstSymbol(list, t)
    decreases t
  {
    if s + 1 < t {
      FirstSymbolMonotone(list, s, t - 1);
    }
  }

  lemma PositionsDistinct(list: seq<nat>, i: nat, j: nat)
    requires HasCode(list, i) && HasCode(list, j) && i != j
    ensures Position(list, i) != Position(list, j)
  {
    RankInSize(list, i);
    RankInSize(list, j);
    if list[i] < list[j] {
      FirstSymbolMonotone(list, list[i], list[j]);
    } else if list[j] < list[i] {
      FirstSymbolMonotone(list, list[j], list[i]);
    } else if i < j {
      SameLengthOrdered(list, i, j);
    } else {
      SameLengthOrdered(list, j, i);
    }
  }

  /** The symbols among the first n with codes of fewer than s bits. */
  function CountBelow(list: seq<nat>, s: nat, n: nat): (c: nat)
    requires n <= |list|
    ensures c <= n
  {
    if n == 0 then 0 else CountBelow(list, s, n - 1) + if 0 < list[n - 1] < s then 1 else 0
  }

  lemma {:induction false} CountBelowStep(list: seq<nat>, s: nat, n: nat)
    requires n <= |list| && s > 0
    ensures CountBelow(list, s + 1, n) == CountBelow(list, s, n) + Count(list, s, n)
  {
    if n > 0 {
      CountBelowStep(list, s, n - 1);
    }
  }

  lemma {:induction false} CountBelowNone(list: seq<nat>, n: nat)
    requires n <= |list|
    ensures CountBelow(list, 1, n) == 0
  {
    if n > 0 {
      CountBelowNone(list, n - 1);
    }
  }

  lemma {:induction false} FirstSymbolIsCount(list: seq<nat>, s: nat)
    requires s >= 1
    ensures FirstSymbol(list, s) == CountBelow(list, s, |list|)
    decreases s
  {
    if s == 1 {
      CountBelowNone(list, |list|);
    } else {
      FirstSymbolIsCount(list, s - 1);
      CountBelowStep(list, s - 1, |list|);
    }
  }

  lemma PositionInRange(list: seq<nat>, i: nat)
    requires HasCode(list, i)
    ensures Position(list, i) < |list|
  {
    RankInSize(list, i);
    FirstSymbolIsCount(list, list[i] + 1);
  }
}
