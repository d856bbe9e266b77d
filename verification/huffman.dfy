/** Huffman decoding with a table for short codes: building the tables, and reading symbols off a bit stream. */
module Huffman {
  import opened Bits
  import opened HuffmanCode
  import opened CanonicalCode

  const FAST_BITS: nat := 9
  const FAST_MASK: nat := 511

  function U16(x: nat): nat {
    x % 0x1_0000
  }

  // ----- What the tables hold -----

  /** The low bits of x are the symbol's code, which is short. */
  predicate Matches(list: seq<nat>, i: nat, x: nat) {
    HasCode(list, i) && list[i] <= FAST_BITS && ToBits(x, list[i]) == CodeBits(list, i)
  }

  function FastValue(list: seq<nat>, i: nat): nat
    requires i < |list|
  {
    list[i] * 512 + i
  }

  /** The entry of the fast table, after the first n symbols. */
  function FastEntry(list: seq<nat>, x: nat, n: nat): nat
    requires n <= |list|
  {
    if n == 0 then 0
    else if Matches(list, n - 1, x) then FastValue(list, n - 1)
    else FastEntry(list, x, n - 1)
  }

  /** The fast table names a symbol whose code the index begins with, or none if there is none. */
  lemma {:induction false} FastEntryFinds(list: seq<nat>, x: nat, n: nat)
    requires n <= |list| && Lengths(list)
    ensures FastEntry(list, x, n) == 0 ==> forall i :: 0 <= i < n ==> !Matches(list, i, x)
    ensures var e := FastEntry(list, x, n);
            e != 0 ==> e % 512 < n && list[e % 512] == e / 512 && Matches(list, e % 512, x)
  {
    if n > 0 {
      FastEntryFinds(list, x, n - 1);
    }
  }

  class ZHuffman {
    const fast: array<nat>
    const firstcode: array<nat>
    const maxcode: array<nat>
    const firstsymbol: array<nat>
    const size: array<nat>
    const value: array<nat>

    constructor ()
      ensures Shape()
      ensures fresh(fast) && fresh(firstcode) && fresh(maxcode) && fresh(firstsymbol) && fresh(size) && fresh(value)
    {
      fast, firstcode, maxcode := new nat[512], new nat[16], new nat[17];
      firstsymbol, size, value := new nat[16], new nat[288], new nat[288];
    }

    predicate Shape()
      reads this
    {
      && fast.Length == 512 && firstcode.Length == 16 && maxcode.Length == 17
      && firstsymbol.Length == 16 && size.Length == 288 && value.Length == 288
      && fast != firstcode && fast != maxcode && fast != firstsymbol && fast != size && fast != value
      && firstcode != maxcode && firstcode != firstsymbol && firstcode != size && firstcode != value
      && maxcode != firstsymbol && maxcode != size && maxcode != value
      && firstsymbol != size && firstsymbol != value && size != value
    }

    /** The tables by code length. */
    ghost predicate LengthTables(list: seq<nat>)
      requires Shape()
      reads this, firstcode, maxcode, firstsymbol
    {
      && maxcode[16] == 0x1_0000
      && forall s :: 1 <= s <= MAX_BITS ==>
           firstcode[s] == First(list, s) && firstsymbol[s] == FirstSymbol(list, s) && maxcode[s] == End(list, s)
    }

    /** The symbols in the order of their codes, as far as the first n go. */
    ghost predicate SymbolTables(list: seq<nat>, n: nat)
      requires Shape() && Lengths(list) && n <= |list|
      reads this, size, value
    {
      forall i :: 0 <= i < n && HasCode(list, i) ==>
        Position(list, i) < 288 && value[Position(list, i)] == i && size[Position(list, i)] == list[i]
    }

    ghost predicate Built(list: seq<nat>)
      requires Shape() && Lengths(list)
      reads this, fast, firstcode, maxcode, firstsymbol, size, value
    {
      && Fits(list) && LengthTables(list) && SymbolTables(list, |list|)
      && forall x :: 0 <= x < 512 ==> fast[x] == FastEntry(list, x, |list|)
    }

    // ----- Building -----

    /** The number of codes of each length. */
    method CountSizes(sizelist: seq<nat>) returns (sizes: array<nat>)
      requires Lengths(sizelist)
      ensures fresh(sizes) && sizes.Length == 17
      ensures forall s :: 0 <= s <= MAX_BITS ==> sizes[s] == Size(sizelist, s)
    {
      sizes := new nat[17](_ => 0);
      for i := 0 to |sizelist|
        invariant forall s :: 0 <= s <= MAX_BITS ==> sizes[s] == Count(sizelist, s, i)
      {
        sizes[sizelist[i]] := sizes[sizelist[i]] + 1;
      }
      sizes[0] := 0;
    }

    /** The tables by code length, below the given length. */
    ghost predicate TablesBelow(list: seq<nat>, nextCode: array<nat>, n: nat)
      requires Shape() && nextCode.Length == 16 && n <= 16
      reads this, firstcode, maxcode, firstsymbol, nextCode
    {
      forall s :: 1 <= s < n ==>
        && nextCode[s] == firstcode[s] == First(list, s)
        && firstsymbol[s] == FirstSymbol(list, s) && maxcode[s] == End(list, s)
    }

    /** Gives out the codes length by length; false if there is no room for them. */
    method GiveOutCodes(sizes: array<nat>, ghost list: seq<nat>) returns (ok: bool, nextCode: array<nat>)
      requires Shape() && Lengths(list) && sizes.Length == 17
      requires sizes != firstcode && sizes != maxcode && sizes != firstsymbol
      requires forall s :: 0 <= s <= MAX_BITS ==> sizes[s] == Size(list, s)
      modifies firstcode, maxcode, firstsymbol
      ensures fresh(nextCode) && nextCode.Length == 16 && (ok <==> Fits(list))
      ensures ok ==> LengthTables(list) && forall s :: 1 <= s <= MAX_BITS ==> nextCode[s] == First(list, s)
    {
      hide First, FirstSymbol, UsedUp, End, Fits, Size, Pow2, Shl, Lengths, U16;
      nextCode := new nat[16];
      ok := SizesInRange(sizes, list);
      if !ok {
        return;
      }
      var code, k := 0, 0;
      StartValues(list);
      for i := 1 to 16
        invariant code == First(list, i) && k == FirstSymbol(list, i)
        invariant forall s :: 0 <= s <= MAX_BITS ==> sizes[s] == Size(list, s)
        invariant UsedUp(list, i - 1) <= Pow2(i - 1)
        invariant TablesBelow(list, nextCode, i)
      {
        StepValues(list, i);
        nextCode[i] := code;
        firstcode[i] := U16(code);
        firstsymbol[i] := U16(k);
        code := code + sizes[i];
        if sizes[i] > 0 {
          if code - 1 >= Pow2(i) {
            return false, nextCode;
          }
        }
        maxcode[i] := Shl(code, 16 - i);
        code := Shl(code, 1);
        k := k + sizes[i];
      }
      maxcode[16] := 0x1_0000;
      AllFit(list);
    }

    /** Enters a short code at every index that begins with it. */
    method FillFast(list: seq<nat>, i: nat, code: nat)
      requires Shape() && Lengths(list) && HasCode(list, i) && list[i] <= FAST_BITS && code == Code(list, i)
      requires forall x :: 0 <= x < 512 ==> fast[x] == FastEntry(list, x, i)
      modifies fast
      ensures forall x :: 0 <= x < 512 ==> fast[x] == FastEntry(list, x, i + 1)
    {
      hide ToBits, Code, Shl, BitReverse, Pow2, MsbBits;
      var s := list[i];
      var fastv := U16(s * 512 + i);
      var j := BitReverse(code, s);
      BitReverseIsCode(code, s);
      BelowFirst(j, s);
      while j < 512
        invariant ToBits(j, s) == CodeBits(list, i)
        invariant forall x :: 0 <= x < 512 ==>
                    fast[x] == if x < j && ToBits(x, s) == ToBits(j, s) then fastv else FastEntry(list, x, i)
        invariant forall x :: 0 <= x < j && x < 512 && Matches(list, i, x) ==> fast[x] == fastv
        decreases 512 + Pow2(s) - j
      {
        fast[j] := fastv;
        ShlOne(s);
        NoneBetween(j, s);
        j := j + Shl(1, s);
      }
    }

    /** Enters a symbol under its code. */
    method EnterSymbol(list: seq<nat>, i: nat, code: nat)
      requires Shape() && Lengths(list) && LengthTables(list) && HasCode(list, i) && code == Code(list, i)
      requires SymbolTables(list, i) && forall x :: 0 <= x < 512 ==> fast[x] == FastEntry(list, x, i)
      modifies fast, size, value
      ensures SymbolTables(list, i + 1) && forall x :: 0 <= x < 512 ==> fast[x] == FastEntry(list, x, i + 1)
    {
      hide First, FirstSymbol, End, Fits, FastEntry;
      var s := list[i];
      PositionInRange(list, i);
      NewPosition(list, i);
      var c := code - firstcode[s] + firstsymbol[s];
      assert c == Position(list, i);
      size[c] := s;
      value[c] := i;
      NoFastEntry(list, i);
      if s <= FAST_BITS {
        FillFast(list, i, code);
      }
    }

    /** Enters all symbols, each under the next code of its length. */
    method FillSymbols(list: seq<nat>, nextCode: array<nat>)
      requires Shape() && Lengths(list) && Fits(list) && LengthTables(list) && nextCode.Length == 16
      requires nextCode != fast && nextCode != size && nextCode != value
      requires nextCode != firstcode && nextCode != maxcode && nextCode != firstsymbol
      requires forall s :: 1 <= s <= MAX_BITS ==> nextCode[s] == First(list, s)
      requires forall x :: 0 <= x < 512 ==> fast[x] == 0
      modifies fast, size, value, nextCode
      ensures Built(list)
    {
      hide First, FirstSymbol, End, Fits, FastEntry, Position, LengthTables, SymbolTables;
      NothingEntered(list);
      for i := 0 to |list|
        invariant LengthTables(list) && SymbolTables(list, i)
        invariant forall s :: 1 <= s <= MAX_BITS ==> nextCode[s] == First(list, s) + Count(list, s, i)
        invariant forall x :: 0 <= x < 512 ==> fast[x] == FastEntry(list, x, i)
      {
        var s := list[i];
        if s > 0 {
          EnterSymbol(list, i, nextCode[s]);
          nextCode[s] := nextCode[s] + 1;
        } else {
          NoFastEntry(list, i);
          SkipSymbol(list, i);
        }
      }
    }

    lemma NothingEntered(list: seq<nat>)
      requires Shape() && Lengths(list)
      ensures SymbolTables(list, 0) && forall x :: 0 <= x < 512 ==> FastEntry(list, x, 0) == 0
    {
    }

    lemma SkipSymbol(list: seq<nat>, i: nat)
      requires Shape() && Lengths(list) && i < |list| && list[i] == 0 && SymbolTables(list, i)
      ensures SymbolTables(list, i + 1)
    {
    }

    /**
     Builds the tables for codes of the given lengths.  It succeeds iff there is room for all the codes,
     complete or not.
     */
    method ZBuildHuffman(sizelist: seq<nat>) returns (ok: bool)
      requires Shape() && Lengths(sizelist)
      modifies fast, firstcode, maxcode, firstsymbol, size, value
      ensures ok <==> Fits(sizelist)
      ensures ok ==> Built(sizelist)
      ensures ok ==> forall i: nat :: HasCode(sizelist, i) ==> Entered(sizelist, i)
    {
      forall x | 0 <= x < 512 {
        fast[x] := 0;
      }
      var sizes := CountSizes(sizelist);
      var nextCode;
      ok, nextCode := GiveOutCodes(sizes, sizelist);
      if ok {
        FillSymbols(sizelist, nextCode);
        forall i: nat | HasCode(sizelist, i) ensures Entered(sizelist, i) {
          BuiltEnters(sizelist, i);
        }
      }
    }

    /** The tables give symbol i for the bits that are its rank: the fast one if there are few, and those by length. */
    ghost predicate Entered(list: seq<nat>, i: nat)
      requires Shape() && HasCode(list, i)
      reads this, fast, firstcode, firstsymbol, size, value
    {
      var s := list[i];
      var place := firstsymbol[s] + Rank(list, i, |list|) - firstcode[s];
      && 0 <= place < 288 && value[place] == i && size[place] == s
      && (s <= FAST_BITS ==>
            forall x :: 0 <= x < 512 && Msb(ToBits(x, s)) == Rank(list, i, |list|) ==> fast[x] == 512 * s + i)
    }

    lemma BuiltEnters(list: seq<nat>, i: nat)
      requires Shape() && Lengths(list) && Built(list) && HasCode(list, i)
      ensures Entered(list, i)
    {
      var s := list[i];
      CodeIsRank(list, i);
      RankInSize(list, i);
      assert Position(list, i) == firstsymbol[s] + Rank(list, i, |list|) - firstcode[s];
      forall x | 0 <= x < 512 && s <= FAST_BITS && Msb(ToBits(x, s)) == Rank(list, i, |list|)
        ensures fast[x] == 512 * s + i
      {
        FastHas(list, i, x);
      }
    }
  }

  /** The low bits of a number are the code of one symbol only. */
  lemma OneMatch(list: seq<nat>, i: nat, j: nat, x: nat)
    requires Lengths(list) && Fits(list) && Matches(list, i, x) && Matches(list, j, x)
    ensures i == j
  {
    if Before(list, i, j) {
      CodesInOrder(list, i, j);
      ToBitsTake(x, list[j], list[i]);
    } else if Before(list, j, i) {
      CodesInOrder(list, j, i);
      ToBitsTake(x, list[i], list[j]);
    }
  }

  /** The fast entry for the bits of a short code. */
  lemma FastHas(list: seq<nat>, i: nat, x: nat)
    requires Lengths(list) && Fits(list) && HasCode(list, i) && list[i] <= FAST_BITS
    requires Msb(ToBits(x, list[i])) == Rank(list, i, |list|)
    ensures FastEntry(list, x, |list|) == 512 * list[i] + i
  {
    hide FastEntry, Fits, MsbBits, Code;
    var low := ToBits(x, list[i]);
    PrefixIsRank(list, i, low);
    assert low[..list[i]] == low && (CodeBits(list, i) <= low ==> CodeBits(list, i) == low);
    FastEntryFinds(list, x, |list|);
    var e := FastEntry(list, x, |list|);
    assert Matches(list, i, x);
    OneMatch(list, i, e % 512, x);
  }

  lemma NoFastEntry(list: seq<nat>, i: nat)
    requires i < |list|
    ensures list[i] == 0 || list[i] > FAST_BITS ==> forall x :: FastEntry(list, x, i + 1) == FastEntry(list, x, i)
  {
  }

  lemma ShlOne(s: nat)
    ensures Shl(1, s) == Pow2(s)
  {
    ShlPow2(0, s);
  }

  /** No smaller number has the low bits of a number of s bits. */
  lemma BelowFirst(j: nat, s: nat)
    requires j < Pow2(s)
    ensures forall x :: 0 <= x < j ==> ToBits(x, s) != ToBits(j, s)
  {
    forall x | 0 <= x < j ensures ToBits(x, s) != ToBits(j, s) {
      LowBitsRepeat(x, j, s);
    }
  }

  lemma NoneBetween(j: nat, s: nat)
    ensures ToBits(j + Pow2(s), s) == ToBits(j, s) && Pow2(s) > 0
    ensures forall x :: j < x < j + Pow2(s) ==> ToBits(x, s) != ToBits(j, s)
  {
    LowBitsRepeat(j, j + Pow2(s), s);
    forall x | j < x < j + Pow2(s) ensures ToBits(x, s) != ToBits(j, s) {
      LowBitsRepeat(j, x, s);
    }
  }

  /** The place for a symbol is none that was given to an earlier one. */
  lemma NewPosition(list: seq<nat>, i: nat)
    requires HasCode(list, i)
    ensures forall p :: 0 <= p < i && HasCode(list, p) ==> Position(list, p) != Position(list, i)
  {
    forall p | 0 <= p < i && HasCode(list, p) ensures Position(list, p) != Position(list, i) {
      PositionsDistinct(list, p, i);
    }
  }

  /** The first look at the sizes: more codes of a length than there are numbers of that length. */
  method SizesInRange(sizes: array<nat>, ghost list: seq<nat>) returns (ok: bool)
    requires sizes.Length == 17 && forall s :: 0 <= s <= MAX_BITS ==> sizes[s] == Size(list, s)
    ensures !ok ==> !Fits(list)
  {
    for i := 1 to 16 {
      if sizes[i] > Pow2(i) {
        NoRoom(list, i);
        return false;
      }
    }
    ok := true;
  }

  lemma NoRoom(list: seq<nat>, s: nat)
    requires 1 <= s <= MAX_BITS && UsedUp(list, s) > Pow2(s)
    ensures !Fits(list)
  {
    if Fits(list) {
      UsedUpBound(list, s, MAX_BITS);
    }
  }

  lemma AllFit(list: seq<nat>)
    ensures UsedUp(list, 15) <= Pow2(15) <==> Fits(list)
  {
  }

  lemma StartValues(list: seq<nat>)
    ensures First(list, 1) == 0 && FirstSymbol(list, 1) == 0 && UsedUp(list, 0) <= Pow2(0)
  {
  }

  /** How the loop's counters go from one length to the next. */
  lemma StepValues(list: seq<nat>, i: nat)
    requires Lengths(list) && 1 <= i <= MAX_BITS && UsedUp(list, i - 1) <= Pow2(i - 1)
    ensures U16(First(list, i)) == First(list, i) && U16(FirstSymbol(list, i)) == FirstSymbol(list, i)
    ensures Shl(First(list, i) + Size(list, i), 1) == First(list, i + 1)
    ensures Shl(First(list, i) + Size(list, i), 16 - i) == End(list, i)
    ensures FirstSymbol(list, i) + Size(list, i) == FirstSymbol(list, i + 1)
    ensures UsedUp(list, i) == First(list, i) + Size(list, i)
    ensures Size(list, i) == 0 ==> UsedUp(list, i) <= Pow2(i)
    ensures UsedUp(list, i) > Pow2(i) ==> !Fits(list)
  {
    CodeIsSmall(list, i);
    if UsedUp(list, i) > Pow2(i) {
      NoRoom(list, i);
    }
  }

  /** The counters stay in range as long as the codes given out so far fit. */
  lemma CodeIsSmall(list: seq<nat>, i: nat)
    requires Lengths(list) && 1 <= i <= MAX_BITS
    requires UsedUp(list, i - 1) <= Pow2(i - 1)
    ensures U16(First(list, i)) == First(list, i) && U16(FirstSymbol(list, i)) == FirstSymbol(list, i)
  {
    FirstSymbolIsCount(list, i);
    Pow2Small(i);
  }

  lemma Pow2Small(i: nat)
    requires i <= MAX_BITS
    ensures Pow2(i) < 0x1_0000
  {
    Pow2Monotone(i, 15);
    assert Pow2(4) == 16 && Pow2(8) == 16 * Pow2(4) && Pow2(12) == 16 * Pow2(8) && Pow2(15) == 8 * Pow2(12);
  }

  lemma {:induction false} Pow2Monotone(i: nat, j: nat)
    requires i <= j
    ensures Pow2(i) <= Pow2(j)
    decreases j
  {
    if i < j {
      Pow2Monotone(i, j - 1);
    }
  }
}
