/** Reading Huffman codes off a bit stream: the fast table and the slow search agree with plain prefix decoding. */
module HuffmanDecode {
  import opened Basics
  import opened Bits
  import opened HuffmanCode
  import opened CanonicalCode
  import opened Huffman

  function Zeros(n: nat): seq<bool> {
    seq(n, _ => false)
  }

  /** The bits of the bytes, each byte lowest bit first. */
  function ByteBits(bytes: seq<Byte>): seq<bool> {
    if bytes == [] then [] else ToBits(bytes[0], 8) + ByteBits(bytes[1..])
  }

  /** Bit by bit: the bytes in their order, each from its lowest bit on. */
  lemma {:induction false} ByteBitsAt(bytes: seq<Byte>, i: nat)
    requires i < 8 * |bytes|
    ensures |ByteBits(bytes)| == 8 * |bytes|
    ensures ByteBits(bytes)[i] == Bit(bytes[i / 8], i % 8)
  {
    var rest := bytes[1..];
    if rest == [] {
      BitOfToBits(bytes[0], 8, i);
    } else if i < 8 {
      ByteBitsAt(rest, 0);
      BitOfToBits(bytes[0], 8, i);
    } else {
      ByteBitsAt(rest, i - 8);
      assert rest[i / 8 - 1] == bytes[i / 8] && (i - 8) / 8 == i / 8 - 1;
    }
  }

  // ----- Words as bits -----

  /** Setting higher bits appends them. */
  lemma OrAppends(x: nat, n: nat, y: nat, m: nat)
    requires x < Pow2(n) && y < Pow2(m)
    ensures ToBits(Or(x, Shl(y, n)), n + m) == ToBits(x, n) + ToBits(y, m)
    ensures Or(x, Shl(y, n)) < Pow2(n + m)
  {
    var w := Or(x, Shl(y, n));
    forall i: nat ensures Bit(w, i) <==> if i < n then Bit(x, i) else Bit(y, i - n) {
      BitOfOr(x, Shl(y, n), i);
      BitOfShl(y, n, i);
      if i >= n {
        BitBeyond(x, n, i);
      }
    }
    forall i | 0 <= i < n + m ensures ToBits(w, n + m)[i] == (ToBits(x, n) + ToBits(y, m))[i] {
      BitOfToBits(w, n + m, i);
      if i < n {
        BitOfToBits(x, n, i);
      } else {
        BitOfToBits(y, m, i - n);
      }
    }
    forall i: nat | i >= n + m ensures !Bit(w, i) {
      BitBeyond(y, m, i - n);
    }
    BoundByBits(w, n + m);
  }

  lemma {:induction false} BoundByBits(x: nat, n: nat)
    requires forall i: nat :: i >= n ==> !Bit(x, i)
    ensures x < Pow2(n)
    decreases n
  {
    if n == 0 {
      forall i: nat ensures Bit(x, i) == Bit(0, i) {
        BitOfZero(i);
      }
      SameBits(x, 0);
    } else {
      forall i: nat | i >= n - 1 ensures !Bit(x / 2, i) {
        assert !Bit(x, i + 1);
      }
      BoundByBits(x / 2, n - 1);
    }
  }

  lemma {:induction false} ShrBound(x: nat, n: nat, s: nat)
    requires x < Pow2(n) && s <= n
    ensures Shr(x, s) < Pow2(n - s)
    decreases s
  {
    if s > 0 {
      ShrBound(x / 2, n - 1, s - 1);
    }
  }

  /** Masking with 511 keeps the nine low bits. */
  lemma LowNine(x: nat, s: nat)
    requires s <= FAST_BITS
    ensures ToBits(And(x, FAST_MASK), s) == ToBits(x, s) && And(x, FAST_MASK) < 512
  {
    var y := And(x, FAST_MASK);
    forall i: nat ensures Bit(y, i) <==> i < 9 && Bit(x, i) {
      BitOfAnd(x, FAST_MASK, i);
      MaskNine(i);
    }
    forall i | 0 <= i < s ensures ToBits(y, s)[i] == ToBits(x, s)[i] {
      BitOfToBits(y, s, i);
      BitOfToBits(x, s, i);
    }
    BoundByBits(y, 9);
    assert Pow2(5) == 32 && Pow2(9) == 16 * Pow2(5);
  }

  lemma MaskNine(i: nat)
    ensures Bit(FAST_MASK, i) <==> i < 9
  {
    Digit(15, 31, i);
    if i >= 4 {
      Digit(15, 1, i - 4);
      if i >= 8 {
        Digit(1, 0, i - 8);
        if i >= 12 {
          BitOfZero(i - 12);
        }
      }
    }
  }

  // ----- Which symbol a 16-bit number begins with -----

  /** The stream's first 16 bits, highest first, as the slow search sees them. */
  function Key(codeBuffer: nat): nat {
    Msb(ToBits(codeBuffer, 16))
  }

  /** The stream begins with the code of symbol i. */
  predicate StartsWith(list: seq<nat>, i: nat, stream: seq<bool>) {
    HasCode(list, i) && CodeBits(list, i) <= stream
  }

  lemma StartsWithIsBegins(list: seq<nat>, i: nat, codeBuffer: nat, stream: seq<bool>)
    requires Fits(list) && |stream| >= 16 && stream[..16] == ToBits(codeBuffer, 16)
    ensures StartsWith(list, i, stream) <==> Begins(list, i, Key(codeBuffer))
  {
    if HasCode(list, i) {
      BeginsIsPrefix(list, i, stream[..16]);
      assert stream[..16][..list[i]] == stream[..list[i]];
    }
  }

  /** A stream begins with a symbol's code exactly if its first bits are the rank of the symbol. */
  lemma StartsWithRank(list: seq<nat>, stream: seq<bool>)
    requires Lengths(list) && Fits(list) && |stream| >= 16
    ensures forall i: nat :: HasCode(list, i) ==>
              (StartsWith(list, i, stream) <==> Msb(stream[..list[i]]) == Rank(list, i, |list|))
  {
    forall i: nat | HasCode(list, i)
      ensures StartsWith(list, i, stream) <==> Msb(stream[..list[i]]) == Rank(list, i, |list|)
    {
      PrefixIsRank(list, i, stream);
    }
  }

  /** At most one symbol's code begins the stream. */
  lemma SymbolUnique(list: seq<nat>, i: nat, j: nat, stream: seq<bool>)
    requires Fits(list) && |stream| >= 16 && StartsWith(list, i, stream) && StartsWith(list, j, stream)
    ensures i == j
  {
    var x := FromBits(stream[..16]);
    ToBitsOfFromBits(stream[..16]);
    StartsWithIsBegins(list, i, x, stream);
    StartsWithIsBegins(list, j, x, stream);
    PrefixFree(list, i, j, Key(x));
  }

  /** The fast table's index matches a short code iff the stream begins with it. */
  lemma MatchIsBegins(list: seq<nat>, i: nat, codeBuffer: nat)
    requires Fits(list)
    ensures Matches(list, i, And(codeBuffer, FAST_MASK))
       <==> Begins(list, i, Key(codeBuffer)) && list[i] <= FAST_BITS
  {
    if HasCode(list, i) && list[i] <= FAST_BITS {
      LowNine(codeBuffer, list[i]);
      BeginsIsPrefix(list, i, ToBits(codeBuffer, 16));
      ToBitsTake(codeBuffer, 16, list[i]);
    }
  }

  /** Two short codes never claim the same slot of the fast table. */
  lemma ShortCodesShareNoSlot(list: seq<nat>, i: nat, j: nat, x: nat)
    requires Fits(list) && Matches(list, i, x) && Matches(list, j, x)
    ensures i == j
  {
    LowNine(x, list[i]);
    LowNine(x, list[j]);
    MatchIsBegins(list, i, x);
    MatchIsBegins(list, j, x);
    PrefixFree(list, i, j, Key(x));
  }

  lemma {:induction false} SomeShortCode(list: seq<nat>, k: nat, t: nat) returns (i: nat)
    requires t <= MAX_BITS && k < End(list, t)
    ensures Begins(list, i, k) && list[i] <= t
    decreases t
  {
    ShlZero(16);
    assert t > 0;
    if k < End(list, t - 1) {
      i := SomeShortCode(list, k, t - 1);
    } else {
      i := SomeCode(list, t, k);
    }
  }

  lemma {:induction false} ShlZero(n: nat)
    ensures Shl(0, n) == 0
  {
    if n > 0 {
      ShlZero(n - 1);
    }
  }

  /** If no short code begins the stream, the number lies behind all short codes. */
  lemma BehindShortCodes(list: seq<nat>, codeBuffer: nat)
    requires Fits(list)
    requires forall i :: 0 <= i < |list| ==> !Matches(list, i, And(codeBuffer, FAST_MASK))
    ensures End(list, FAST_BITS) <= Key(codeBuffer)
  {
    if Key(codeBuffer) < End(list, FAST_BITS) {
      var i := SomeShortCode(list, Key(codeBuffer), FAST_BITS);
      MatchIsBegins(list, i, codeBuffer);
    }
  }

  lemma BehindAllCodes(list: seq<nat>, k: nat)
    requires k >= End(list, MAX_BITS)
    ensures forall i :: 0 <= i < |list| ==> !Begins(list, i, k)
  {
    forall i | 0 <= i < |list| ensures !Begins(list, i, k) {
      if Begins(list, i, k) {
        BeginsInside(list, i, k);
        EndMonotone(list, list[i], MAX_BITS);
      }
    }
  }

  // ----- The bit buffer -----

  class ZBuf {
    const zbuffer: seq<Byte>
    var position: nat
    var numBits: nat
    var codeBuffer: nat

    constructor (zbuffer: seq<Byte>)
      ensures Valid() && this.zbuffer == zbuffer && Stream() == ByteBits(zbuffer)
    {
      this.zbuffer := zbuffer;
      position, numBits, codeBuffer := 0, 0, 0;
      new;
      assert zbuffer[0..] == zbuffer;
    }

    /** The buffer holds numBits bits, which fit into its 32. */
    predicate Valid()
      reads this
    {
      position <= |zbuffer| && numBits <= 32 && codeBuffer < Pow2(numBits)
    }

    /** All bits still to be read, up to the end of the input. */
    ghost function Stream(): seq<bool>
      reads this
      requires Valid()
    {
      ToBits(codeBuffer, numBits) + ByteBits(zbuffer[position..])
    }

    /** The next byte, or 0 behind the end. */
    method ZGet8() returns (b: Byte)
      requires Valid()
      modifies this`position
      ensures Valid()
      ensures if old(position) < |zbuffer| then b == zbuffer[old(position)] && position == old(position) + 1
              else b == 0 && position == old(position)
    {
      if position >= |zbuffer| {
        return 0;
      }
      b := zbuffer[position];
      position := position + 1;
    }

    /**
     Loads whole bytes until more than 24 bits are there; behind the end of the input the stream goes on with zeros.
     */
    method FillBits() returns (ghost zeros: nat)
      requires Valid() && numBits <= 24
      modifies this
      ensures Valid() && numBits > 24 && Stream() == old(Stream()) + Zeros(zeros)
      ensures zeros > 0 ==> position == |zbuffer|
    {
      zeros := FillByte();
      while numBits <= 24
        invariant Valid() && Stream() == old(Stream()) + Zeros(zeros)
        invariant zeros > 0 ==> position == |zbuffer|
        decreases 32 - numBits
      {
        var more := FillByte();
        assert old(Stream()) + Zeros(zeros) + Zeros(more) == old(Stream()) + Zeros(zeros + more);
        zeros := zeros + more;
      }
    }

    method FillByte() returns (ghost zeros: nat)
      requires Valid() && numBits <= 24
      modifies this
      ensures Valid() && numBits == old(numBits) + 8 && Stream() == old(Stream()) + Zeros(zeros)
      ensures old(position) < |zbuffer| ==> zeros == 0
      ensures old(position) == |zbuffer| ==> position == |zbuffer|
    {
      ghost var rest := ByteBits(zbuffer[position..]);
      var b := ZGet8();
      assert Pow2(4) == 16 && Pow2(8) == 16 * Pow2(4);
      OrAppends(codeBuffer, numBits, b, 8);
      codeBuffer := Or(codeBuffer, Shl(b, numBits));
      numBits := numBits + 8;
      if old(position) < |zbuffer| {
        assert zbuffer[old(position)..][1..] == zbuffer[position..];
        zeros := 0;
      } else {
        ZeroBits(8);
        zeros := 8;
      }
    }

    /** Takes s bits off the front. */
    method Consume(s: nat)
      requires Valid() && s <= numBits
      modifies this`numBits, this`codeBuffer
      ensures Valid() && numBits == old(numBits) - s && |old(Stream())| >= s && Stream() == old(Stream())[s..]
    {
      ToBitsDrop(codeBuffer, numBits, s);
      ShrBound(codeBuffer, numBits, s);
      codeBuffer := Shr(codeBuffer, s);
      numBits := numBits - s;
    }

    /** The search by length, for codes too long for the fast table; -1 if no code begins the stream. */
    method ZHuffmanDecodeSlowpath(z: ZHuffman, ghost list: seq<nat>) returns (r: int)
      requires Valid() && numBits >= 16 && z.Shape() && Lengths(list) && z.Built(list)
      requires forall i :: 0 <= i < |list| ==> !Matches(list, i, And(codeBuffer, FAST_MASK))
      modifies this`numBits, this`codeBuffer
      ensures Valid()
      ensures r >= 0 ==> Begins(list, r, Key(old(codeBuffer))) && Stream() == Rest(old(Stream()), list[r])
      ensures r < 0 ==> r == -1 && Stream() == old(Stream())
                        && forall i :: 0 <= i < |list| ==> !Begins(list, i, Key(old(codeBuffer)))
    {
      hide Fits, End, First, FirstSymbol, Matches, FastEntry, BitReverse, ByteBits, ZHuffman.Built, ZHuffman.Shape;
      TableShape(z, list);
      var k := BitReverse(codeBuffer, 16);
      ReverseReads(codeBuffer);
      BitReverseIsCode(codeBuffer, 16);
      BehindShortCodes(list, codeBuffer);
      var s := FAST_BITS + 1;
      LengthEntries(z, list);
      SentinelStops(k);
      while k >= z.maxcode[s]
        invariant FAST_BITS + 1 <= s <= 16 && End(list, s - 1) <= k
        decreases 16 - s
      {
        s := s + 1;
      }
      if s == 16 {
        BehindAllCodes(list, k);
        return -1;
      }
      ghost var i := SomeCode(list, s, k);
      SymbolEntry(z, list, i);
      var b := Shr(k, 16 - s) - z.firstcode[s] + z.firstsymbol[s];
      assert b == Position(list, i) && z.size[b] == s;
      r := z.value[b];
      Consume(s);
    }

    /**
     Reads one symbol.  The stream, continued with zeros where the input ends, begins with the code of the
     symbol returned, and exactly that code is taken off it; -1 is returned iff it begins with no code at all.
     */
    method ZHuffmanDecode(z: ZHuffman, ghost list: seq<nat>) returns (r: int, ghost stream: seq<bool>)
      requires Valid() && z.Shape() && Lengths(list) && z.Built(list)
      modifies this
      ensures Valid() && |stream| >= 16
      ensures exists zeros :: stream == old(Stream()) + Zeros(zeros) && (zeros > 0 ==> position == |zbuffer|)
      ensures r >= 0 ==> StartsWith(list, r, stream) && Stream() == stream[list[r]..]
      ensures r < 0 ==> r == -1 && Stream() == stream && forall i :: 0 <= i < |list| ==> !StartsWith(list, i, stream)
      ensures r >= 0 ==> HasCode(list, r) && Msb(stream[..list[r]]) == Rank(list, r, |list|)
      ensures r < 0 ==> forall i: nat :: HasCode(list, i) ==> Msb(stream[..list[i]]) != Rank(list, i, |list|)
    {
      hide Fits, End, First, FirstSymbol, Matches, FastEntry, ByteBits, ZHuffman.Built, ZHuffman.Shape, StartsWith,
           Begins, Rank, Msb;
      TableShape(z, list);
      ghost var zeros := 0;
      assert old(Stream()) + Zeros(0) == old(Stream());
      if numBits < 16 {
        zeros := FillBits();
      }
      stream := Stream();
      StartsWithRank(list, stream);
      ToBitsTake(codeBuffer, numBits, 16);
      assert stream[..16] == ToBits(codeBuffer, 16);
      LowNine(codeBuffer, 0);
      ghost var buffer := codeBuffer;
      var b := z.fast[And(codeBuffer, FAST_MASK)];
      FastLookup(z, list, And(codeBuffer, FAST_MASK), b);
      if b != 0 {
        var s := b / 512;
        r := b % 512;
        MatchIsBegins(list, r, buffer);
        StartsWithIsBegins(list, r, buffer, stream);
        BeginsHasCode(list, r, Key(buffer));
        Consume(s);
        return;
      }
      r := ZHuffmanDecodeSlowpath(z, list);
      forall i | 0 <= i < |list| ensures StartsWith(list, i, stream) <==> Begins(list, i, Key(buffer)) {
        StartsWithIsBegins(list, i, buffer, stream);
      }
      if r >= 0 {
        BeginsHasCode(list, r, Key(buffer));
      }
    }
  }

  lemma BeginsHasCode(list: seq<nat>, i: nat, k: nat)
    requires Begins(list, i, k)
    ensures i < |list| && 0 < list[i] <= MAX_BITS
  {
  }

  lemma TableShape(z: ZHuffman, list: seq<nat>)
    requires z.Shape() && Lengths(list) && z.Built(list)
    ensures z.fast.Length == 512 && z.firstcode.Length == 16 && z.maxcode.Length == 17
    ensures z.firstsymbol.Length == 16 && z.size.Length == 288 && z.value.Length == 288 && Fits(list)
  {
  }

  lemma LengthEntries(z: ZHuffman, list: seq<nat>)
    requires z.Shape() && Lengths(list) && z.Built(list)
    ensures z.maxcode[16] == 0x1_0000
    ensures forall s :: 1 <= s <= MAX_BITS ==>
              z.firstcode[s] == First(list, s) && z.firstsymbol[s] == FirstSymbol(list, s)
              && z.maxcode[s] == End(list, s)
  {
  }

  lemma SymbolEntry(z: ZHuffman, list: seq<nat>, i: nat)
    requires z.Shape() && Lengths(list) && z.Built(list) && HasCode(list, i)
    ensures Position(list, i) < 288 && z.value[Position(list, i)] == i && z.size[Position(list, i)] == list[i]
  {
  }

  /** What the fast table says about an index. */
  lemma FastLookup(z: ZHuffman, list: seq<nat>, x: nat, e: nat)
    requires z.Shape() && Lengths(list) && z.Built(list) && x < 512 && e == z.fast[x]
    ensures e == 0 ==> forall i :: 0 <= i < |list| ==> !Matches(list, i, x)
    ensures e != 0 ==> e % 512 < |list| && list[e % 512] == e / 512 && Matches(list, e % 512, x)
  {
    FastEntryFinds(list, x, |list|);
  }

  function Rest(stream: seq<bool>, n: nat): seq<bool> {
    if n <= |stream| then stream[n..] else []
  }

  lemma SentinelStops(k: nat)
    requires k < Pow2(16)
    ensures k < 0x1_0000
  {
    assert Pow2(4) == 16 && Pow2(8) == 16 * Pow2(4) && Pow2(12) == 16 * Pow2(8) && Pow2(16) == 16 * Pow2(12);
  }

  lemma {:induction false} ZeroBits(n: nat)
    ensures ToBits(0, n) == Zeros(n)
  {
    if n > 0 {
      ZeroBits(n - 1);
      assert Zeros(n) == [false] + Zeros(n - 1);
    }
  }
}
