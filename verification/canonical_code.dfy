/**
 What makes the codes canonical (section 3.2.2 of RFC 1951), on their bits: shorter codes come first and codes of
 one length follow the order of their symbols, the first one is all zeros, and each begins right behind the one before.
 */
module CanonicalCode {
  import opened Bits
  import opened HuffmanCode

  /** Symbol j comes before symbol i: its code is shorter, or as long and j is the earlier symbol. */
  predicate Before(list: seq<nat>, j: nat, i: nat) {
    HasCode(list, j) && HasCode(list, i) && (list[j] < list[i] || (list[j] == list[i] && j < i))
  }

  /** How many numbers of list[i] bits begin with the code of a symbol, among the first n, that comes before i. */
  function Rank(list: seq<nat>, i: nat, n: nat): nat
    requires HasCode(list, i) && n <= |list|
  {
    if n == 0 then 0
    else Rank(list, i, n - 1) + if Before(list, n - 1, i) then Pow2(list[i] - list[n - 1]) else 0
  }

  // ----- A code is the rank of its symbol -----

  /** How many numbers of s bits begin with a code, of at most s bits, of one of the first n symbols. */
  function Taken(list: seq<nat>, s: nat, n: nat): nat
    requires n <= |list|
  {
    if n == 0 then 0 else Taken(list, s, n - 1) + if 0 < list[n - 1] <= s then Pow2(s - list[n - 1]) else 0
  }

  lemma {:induction false} TakenStep(list: seq<nat>, s: nat, n: nat)
    requires n <= |list|
    ensures Taken(list, s + 1, n) == 2 * Taken(list, s, n) + Count(list, s + 1, n)
  {
    if n > 0 {
      TakenStep(list, s, n - 1);
    }
  }

  lemma {:induction false} TakenNone(list: seq<nat>, n: nat)
    requires n <= |list|
    ensures Taken(list, 0, n) == 0
  {
    if n > 0 {
      TakenNone(list, n - 1);
    }
  }

  lemma {:induction false} TakenIsUsedUp(list: seq<nat>, s: nat)
    ensures Taken(list, s, |list|) == UsedUp(list, s)
  {
    if s == 0 {
      TakenNone(list, |list|);
    } else {
      TakenIsUsedUp(list, s - 1);
      TakenStep(list, s - 1, |list|);
    }
  }

  lemma {:induction false} RankParts(list: seq<nat>, i: nat, n: nat)
    requires HasCode(list, i) && list[i] <= MAX_BITS && n <= |list| && forall k :: 0 <= k < n ==> list[k] <= MAX_BITS
    ensures Rank(list, i, n) == 2 * Taken(list, list[i] - 1, n) + Count(list, list[i], if n < i then n else i)
  {
    if n > 0 {
      RankParts(list, i, n - 1);
    }
  }

  lemma CodeIsRank(list: seq<nat>, i: nat)
    requires HasCode(list, i) && Lengths(list)
    ensures Code(list, i) == Rank(list, i, |list|)
  {
    TakenIsUsedUp(list, list[i] - 1);
    RankParts(list, i, |list|);
  }

  lemma CodeNumber(list: seq<nat>, i: nat)
    requires HasCode(list, i) && Fits(list)
    ensures Msb(CodeBits(list, i)) == Code(list, i)
  {
    RankInSize(list, i);
    EndBound(list, list[i]);
    MsbOfMsbBits(Code(list, i), list[i]);
  }

  /** Read as a number, the bits of a code are the rank of its symbol. */
  lemma BitsAreRank(list: seq<nat>, i: nat)
    requires HasCode(list, i) && Lengths(list) && Fits(list)
    ensures Msb(CodeBits(list, i)) == Rank(list, i, |list|)
  {
    CodeNumber(list, i);
    CodeIsRank(list, i);
  }

  /** A stream begins with a symbol's code exactly if its first bits, as many as the code has, are the symbol's rank. */
  lemma PrefixIsRank(list: seq<nat>, i: nat, stream: seq<bool>)
    requires HasCode(list, i) && Lengths(list) && Fits(list) && list[i] <= |stream|
    ensures CodeBits(list, i) <= stream <==> Msb(stream[..list[i]]) == Rank(list, i, |list|)
  {
    BitsAreRank(list, i);
    MsbBitsOfMsb(stream[..list[i]]);
    MsbBitsOfMsb(CodeBits(list, i));
    assert CodeBits(list, i) <= stream <==> CodeBits(list, i) == stream[..list[i]];
  }

  // ----- The order of the codes -----

  /** In the order of bits: equal up to some place, where a has a 0 and b a 1. */
  ghost predicate BitOrder(a: seq<bool>, b: seq<bool>) {
    exists k :: 0 <= k < |a| && k < |b| && a[..k] == b[..k] && !a[k] && b[k]
  }

  lemma {:induction false} SmallerFirst(a: seq<bool>, b: seq<bool>)
    requires |a| == |b| && Msb(a) < Msb(b)
    ensures BitOrder(a, b)
  {
    var n := |a| - 1;
    if Msb(a[..n]) < Msb(b[..n]) {
      SmallerFirst(a[..n], b[..n]);
      var k :| 0 <= k < n && a[..n][..k] == b[..n][..k] && !a[..n][k] && b[..n][k];
      assert a[..k] == a[..n][..k] && b[..k] == b[..n][..k];
    } else {
      MsbBitsOfMsb(a[..n]);
      MsbBitsOfMsb(b[..n]);
      assert a[..n] == b[..n];
    }
  }

  /** The codes of s bits leave room for those of t bits. */
  lemma {:induction false} LongerBehind(list: seq<nat>, s: nat, t: nat)
    requires s < t
    ensures Shl(UsedUp(list, s), t - s) <= First(list, t)
    decreases t
  {
    if s + 1 < t {
      LongerBehind(list, s, t - 1);
    }
  }

  lemma SmallerPrefix(list: seq<nat>, j: nat, i: nat)
    requires Lengths(list) && Fits(list) && Before(list, j, i)
    ensures Code(list, j) < Msb(CodeBits(list, i)[..list[j]])
  {
    hide Msb, MsbBits, Fits, UsedUp, Lengths;
    var s, d := list[j], list[i] - list[j];
    RankInSize(list, j);
    RankInSize(list, i);
    CodeNumber(list, i);
    var c := Shr(Code(list, i), d);
    ShrIs(Code(list, i), d, c);
    ShrOfMsb(CodeBits(list, i), d);
    if d == 0 {
      SameLengthOrdered(list, j, i);
    } else {
      LongerBehind(list, s, list[i]);
      ShlMonotone(Code(list, j) + 1, UsedUp(list, s), d);
      if c <= Code(list, j) {
        ShlMonotone(c + 1, Code(list, j) + 1, d);
      }
    }
  }

  /** A symbol that comes before another has the earlier code; shorter codes come before all longer ones. */
  lemma CodesInOrder(list: seq<nat>, j: nat, i: nat)
    requires Lengths(list) && Fits(list) && Before(list, j, i)
    ensures BitOrder(CodeBits(list, j), CodeBits(list, i))
  {
    hide Msb, Fits, Lengths, MsbBits, Code;
    SmallerPrefix(list, j, i);
    CodeNumber(list, j);
    SmallerFirst(CodeBits(list, j), CodeBits(list, i)[..list[j]]);
    LongerOrder(CodeBits(list, j), CodeBits(list, i), list[j]);
  }

  lemma LongerOrder(a: seq<bool>, b: seq<bool>, n: nat)
    requires n <= |b| && BitOrder(a, b[..n])
    ensures BitOrder(a, b)
  {
    var k :| 0 <= k < |a| && k < n && a[..k] == b[..n][..k] && !a[k] && b[..n][k];
    assert b[..k] == b[..n][..k];
  }

  /** No symbol comes between i and j. */
  ghost predicate Neighbours(list: seq<nat>, i: nat, j: nat) {
    Before(list, i, j) && forall k :: Before(list, i, k) ==> !Before(list, k, j)
  }

  lemma {:induction false} CountSame(list: seq<nat>, s: nat, m: nat, n: nat)
    requires m <= n <= |list| && forall k :: m <= k < n ==> list[k] != s
    ensures Count(list, s, n) == Count(list, s, m)
    decreases n
  {
    if m < n {
      CountSame(list, s, m, n - 1);
    }
  }

  lemma {:induction false} NothingUsed(list: seq<nat>, s: nat, t: nat)
    requires s <= t && forall u :: s < u <= t ==> Size(list, u) == 0
    ensures UsedUp(list, t) == Shl(UsedUp(list, s), t - s)
    decreases t
  {
    if s < t {
      NothingUsed(list, s, t - 1);
    }
  }

  /**
   Each code begins right behind the one before: the next number of the same length, or, for the first code of the
   next length in use, that number with zeros behind it.
   */
  lemma NextCode(list: seq<nat>, i: nat, j: nat)
    requires Lengths(list) && Fits(list) && Neighbours(list, i, j)
    ensures Msb(CodeBits(list, j)) == Shl(Msb(CodeBits(list, i)) + 1, list[j] - list[i])
  {
    hide Fits, Msb, MsbBits, Lengths, UsedUp, Count;
    CodeNumber(list, i);
    CodeNumber(list, j);
    if list[i] == list[j] {
      NextOfLength(list, i, j);
    } else {
      NoLengthBetween(list, i, j);
      NothingUsed(list, list[i], list[j] - 1);
      assert UsedUp(list, list[i]) == Code(list, i) + 1 by { LastOfLength(list, i, j); }
    }
  }

  lemma NextOfLength(list: seq<nat>, i: nat, j: nat)
    requires Neighbours(list, i, j) && list[i] == list[j]
    ensures Count(list, list[i], j) == Count(list, list[i], i) + 1
  {
    forall k | i < k < j ensures list[k] != list[i] {
      assert !(Before(list, i, k) && Before(list, k, j));
    }
    CountSame(list, list[i], i + 1, j);
  }

  lemma LastOfLength(list: seq<nat>, i: nat, j: nat)
    requires Neighbours(list, i, j) && list[i] < list[j]
    ensures UsedUp(list, list[i]) == Code(list, i) + 1
  {
    forall k | i < k < |list| ensures list[k] != list[i] {
      assert !(Before(list, i, k) && Before(list, k, j));
    }
    CountSame(list, list[i], i + 1, |list|);
  }

  lemma NoLengthBetween(list: seq<nat>, i: nat, j: nat)
    requires Lengths(list) && Neighbours(list, i, j) && list[i] < list[j]
    ensures Count(list, list[j], j) == 0 && forall u :: list[i] < u <= list[j] - 1 ==> Size(list, u) == 0
  {
    forall k | 0 <= k < j ensures list[k] != list[j] {
      assert !(Before(list, i, k) && Before(list, k, j));
    }
    CountSame(list, list[j], 0, j);
    forall u | list[i] < u <= list[j] - 1 ensures Size(list, u) == 0 {
      forall k | 0 <= k < |list| ensures list[k] != u {
        assert !(Before(list, i, k) && Before(list, k, j));
      }
      CountSame(list, u, 0, |list|);
    }
  }

  /** The first code given out is all zeros. */
  lemma FirstCode(list: seq<nat>, i: nat)
    requires Lengths(list) && Fits(list) && HasCode(list, i) && forall k :: !Before(list, k, i)
    ensures forall b :: b in CodeBits(list, i) ==> !b
  {
    forall k | 0 <= k < i ensures list[k] != list[i] {
      assert !Before(list, k, i);
    }
    CountSame(list, list[i], 0, i);
    forall u | 0 < u <= list[i] - 1 ensures Size(list, u) == 0 {
      forall k | 0 <= k < |list| ensures list[k] != u {
        assert !Before(list, k, i);
      }
      CountSame(list, u, 0, |list|);
    }
    NothingUsed(list, 0, list[i] - 1);
    ShlNothing(list[i] - 1);
    NoBitsSet(list[i]);
  }

  lemma {:induction false} ShlNothing(n: nat)
    ensures Shl(0, n) == 0
  {
    if n > 0 {
      ShlNothing(n - 1);
    }
  }

  lemma {:induction false} NoBitsSet(n: nat)
    ensures forall b :: b in MsbBits(0, n) ==> !b
  {
    if n > 0 {
      NoBitsSet(n - 1);
    }
  }

  /** Two symbols with codes of one bit: the first has the code 0 and the second the code 1. */
  lemma TwoSymbols()
    ensures CodeBits([1, 1], 0) == [false] && CodeBits([1, 1], 1) == [true]
  {
    assert Count([1, 1], 1, 1) == 1;
    assert MsbBits(0, 1) == [false] && MsbBits(1, 1) == [true];
  }
}
