/**
 Words as bits: least significant first, as a stream delivers them, or most significant first, as codes are written.
 */
module Bits {

  function Pow2(n: nat): (p: nat)
    ensures p > 0
  {
    if n == 0 then 1 else 2 * Pow2(n - 1)
  }

  function Shl(x: nat, n: nat): nat {
    if n == 0 then x else 2 * Shl(x, n - 1)
  }

  function Shr(x: nat, n: nat): nat {
    if n == 0 then x else Shr(x / 2, n - 1)
  }

  /** The n low bits of x, the lowest first. */
  function ToBits(x: nat, n: nat): (b: seq<bool>)
    ensures |b| == n
  {
    if n == 0 then [] else [x % 2 == 1] + ToBits(x / 2, n - 1)
  }

  function FromBits(b: seq<bool>): nat {
    if b == [] then 0 else (if b[0] then 1 else 0) + 2 * FromBits(b[1..])
  }

  /** The n low bits of x, the highest first. */
  function MsbBits(x: nat, n: nat): (b: seq<bool>)
    ensures |b| == n
  {
    if n == 0 then [] else MsbBits(x / 2, n - 1) + [x % 2 == 1]
  }

  function Msb(b: seq<bool>): nat {
    if b == [] then 0 else 2 * Msb(b[..|b| - 1]) + if b[|b| - 1] then 1 else 0
  }

  function Reversed(b: seq<bool>): (r: seq<bool>)
    ensures |r| == |b|
  {
    if b == [] then [] else Reversed(b[1..]) + [b[0]]
  }

  lemma {:induction false} ReversedAt(b: seq<bool>, i: nat)
    requires i < |b|
    ensures Reversed(b)[i] == b[|b| - 1 - i]
  {
    if i < |b| - 1 {
      ReversedAt(b[1..], i);
    }
  }

  lemma {:induction false} ToBitsOfFromBits(b: seq<bool>)
    ensures ToBits(FromBits(b), |b|) == b
  {
    if b != [] {
      ToBitsOfFromBits(b[1..]);
    }
  }

  lemma {:induction false} FromBitsOfToBits(x: nat, n: nat)
    requires x < Pow2(n)
    ensures FromBits(ToBits(x, n)) == x
  {
    if n > 0 {
      FromBitsOfToBits(x / 2, n - 1);
      assert ToBits(x, n)[1..] == ToBits(x / 2, n - 1);
    }
  }

  lemma {:induction false} FromBitsBound(b: seq<bool>)
    ensures FromBits(b) < Pow2(|b|)
  {
    if b != [] {
      FromBitsBound(b[1..]);
    }
  }

  lemma {:induction false} MsbBitsOfMsb(b: seq<bool>)
    ensures MsbBits(Msb(b), |b|) == b && Msb(b) < Pow2(|b|)
  {
    if b != [] {
      MsbBitsOfMsb(b[..|b| - 1]);
      assert b == b[..|b| - 1] + [b[|b| - 1]];
    }
  }

  lemma {:induction false} MsbOfMsbBits(x: nat, n: nat)
    requires x < Pow2(n)
    ensures Msb(MsbBits(x, n)) == x
  {
    if n > 0 {
      MsbOfMsbBits(x / 2, n - 1);
      assert MsbBits(x, n)[..n - 1] == MsbBits(x / 2, n - 1);
    }
  }

  lemma {:induction false} MsbIsReversed(x: nat, n: nat)
    ensures MsbBits(x, n) == Reversed(ToBits(x, n))
  {
    if n > 0 {
      MsbIsReversed(x / 2, n - 1);
      assert ToBits(x, n)[1..] == ToBits(x / 2, n - 1);
    }
  }

  /** The high bits are what a right shift leaves. */
  lemma {:induction false} ShrOfMsb(b: seq<bool>, n: nat)
    requires n <= |b|
    ensures Shr(Msb(b), n) == Msb(b[..|b| - n])
    decreases n
  {
    if n > 0 {
      var front := b[..|b| - 1];
      assert Msb(b) / 2 == Msb(front);
      ShrOfMsb(front, n - 1);
      assert front[..|b| - n] == b[..|b| - n];
    } else {
      assert b[..|b|] == b;
    }
  }

  lemma {:induction false} ShrOfFromBits(b: seq<bool>, n: nat)
    requires n <= |b|
    ensures Shr(FromBits(b), n) == FromBits(b[n..])
    decreases n
  {
    if n > 0 {
      ShrOfFromBits(b[1..], n - 1);
      assert b[1..][n - 1..] == b[n..];
    }
  }

  /** A right shift gives c exactly between c and c + 1 shifted left. */
  lemma {:induction false} ShrIs(k: nat, n: nat, c: nat)
    ensures Shr(k, n) == c <==> Shl(c, n) <= k < Shl(c + 1, n)
    decreases n
  {
    if n > 0 {
      ShrIs(k / 2, n - 1, c);
    }
  }

  lemma {:induction false} ShlMonotone(x: nat, y: nat, n: nat)
    requires x <= y
    ensures Shl(x, n) <= Shl(y, n)
  {
    if n > 0 {
      ShlMonotone(x, y, n - 1);
    }
  }

  lemma {:induction false} ShlDouble(x: nat, n: nat)
    ensures Shl(2 * x, n) == Shl(x, n + 1)
  {
    if n > 0 {
      ShlDouble(x, n - 1);
    }
  }

  lemma {:induction false} ShlPow2(s: nat, n: nat)
    ensures Shl(Pow2(s), n) == Pow2(s + n)
  {
    if n > 0 {
      ShlPow2(s, n - 1);
    }
  }

  /** The low bits repeat with period 2^s, and not before. */
  lemma {:induction false} LowBitsRepeat(x: nat, y: nat, s: nat)
    requires x < y
    ensures y == x + Pow2(s) ==> ToBits(y, s) == ToBits(x, s)
    ensures y < x + Pow2(s) ==> ToBits(y, s) != ToBits(x, s)
    decreases s
  {
    if s > 0 {
      var p, q := ToBits(x, s), ToBits(y, s);
      assert p[0] == (x % 2 == 1) && p[1..] == ToBits(x / 2, s - 1);
      assert q[0] == (y % 2 == 1) && q[1..] == ToBits(y / 2, s - 1);
      if x / 2 < y / 2 {
        LowBitsRepeat(x / 2, y / 2, s - 1);
      }
    }
  }

  lemma {:induction false} ToBitsTake(x: nat, n: nat, s: nat)
    requires s <= n
    ensures ToBits(x, n)[..s] == ToBits(x, s)
  {
    if s > 0 {
      ToBitsTake(x / 2, n - 1, s - 1);
      assert ToBits(x, n)[..s] == [x % 2 == 1] + ToBits(x / 2, n - 1)[..s - 1];
    }
  }

  lemma {:induction false} ToBitsDrop(x: nat, n: nat, s: nat)
    requires s <= n
    ensures ToBits(x, n)[s..] == ToBits(Shr(x, s), n - s)
    decreases s
  {
    if s > 0 {
      ToBitsDrop(x / 2, n - 1, s - 1);
      assert ToBits(x, n)[s..] == ToBits(x / 2, n - 1)[s - 1..];
    }
  }

  /** Small numbers have leading zeros. */
  lemma {:induction false} MsbBitsDrop(x: nat, n: nat, s: nat)
    requires s <= n
    ensures MsbBits(x, n)[n - s..] == MsbBits(x, s)
    decreases s
  {
    if s > 0 {
      MsbBitsDrop(x / 2, n - 1, s - 1);
      assert MsbBits(x, n)[n - s..] == MsbBits(x / 2, n - 1)[n - s..] + [x % 2 == 1];
    }
  }

  // ----- Bitwise operations on numbers -----

  function Bit(x: nat, i: nat): bool {
    if i == 0 then x % 2 == 1 else Bit(x / 2, i - 1)
  }

  function And(x: nat, y: nat): nat {
    if x == 0 || y == 0 then 0 else 2 * And(x / 2, y / 2) + (if x % 2 == 1 && y % 2 == 1 then 1 else 0)
  }

  function Or(x: nat, y: nat): nat
    decreases x + y
  {
    if x == 0 && y == 0 then 0 else 2 * Or(x / 2, y / 2) + (if x % 2 == 1 || y % 2 == 1 then 1 else 0)
  }

  lemma {:induction false} BitOfZero(i: nat)
    ensures !Bit(0, i)
  {
    if i > 0 {
      BitOfZero(i - 1);
    }
  }

  lemma {:induction false} BitOfAnd(x: nat, y: nat, i: nat)
    ensures Bit(And(x, y), i) <==> Bit(x, i) && Bit(y, i)
    decreases i
  {
    BitOfZero(i);
    if i > 0 {
      BitOfAnd(x / 2, y / 2, i - 1);
    }
  }

  lemma {:induction false} BitOfOr(x: nat, y: nat, i: nat)
    ensures Bit(Or(x, y), i) <==> Bit(x, i) || Bit(y, i)
    decreases i
  {
    BitOfZero(i);
    var low := if x % 2 == 1 || y % 2 == 1 then 1 else 0;
    if x != 0 || y != 0 {
      assert Or(x, y) == 2 * Or(x / 2, y / 2) + low;
      assert Or(x, y) / 2 == Or(x / 2, y / 2) && Or(x, y) % 2 == low;
      if i > 0 {
        BitOfOr(x / 2, y / 2, i - 1);
      }
    }
  }

  lemma {:induction false} BitOfShr(x: nat, n: nat, i: nat)
    ensures Bit(Shr(x, n), i) == Bit(x, i + n)
    decreases n
  {
    if n > 0 {
      BitOfShr(x / 2, n - 1, i);
    }
  }

  lemma {:induction false} BitOfShl(x: nat, n: nat, i: nat)
    ensures Bit(Shl(x, n), i) <==> i >= n && Bit(x, i - n)
    decreases n
  {
    if n > 0 && i > 0 {
      BitOfShl(x, n - 1, i - 1);
    }
  }

  lemma {:induction false} BitOfToBits(x: nat, n: nat, i: nat)
    requires i < n
    ensures ToBits(x, n)[i] == Bit(x, i)
    decreases i
  {
    if i > 0 {
      BitOfToBits(x / 2, n - 1, i - 1);
    }
  }

  // ----- Reversing 16 bits -----

  /** Groups of k bits, under the mask `high` and under the mask `low`, change places. */
  function Swapped(n: nat, high: nat, low: nat, k: nat): nat {
    Or(Shr(And(n, high), k), Shl(And(n, low), k))
  }

  /** Swaps neighbouring bits, pairs, nibbles and bytes. */
  function BitReverse16(n: nat): nat {
    var a := Swapped(n, 0xAAAA, 0x5555, 1);
    var b := Swapped(a, 0xCCCC, 0x3333, 2);
    var c := Swapped(b, 0xF0F0, 0x0F0F, 4);
    Swapped(c, 0xFF00, 0x00FF, 8)
  }

  lemma SwappedBit(n: nat, high: nat, low: nat, k: nat, i: nat)
    ensures Bit(Swapped(n, high, low, k), i) <==>
              (Bit(n, i + k) && Bit(high, i + k)) || (i >= k && Bit(n, i - k) && Bit(low, i - k))
  {
    BitOfOr(Shr(And(n, high), k), Shl(And(n, low), k), i);
    BitOfShr(And(n, high), k, i);
    BitOfShl(And(n, low), k, i);
    BitOfAnd(n, high, i + k);
    if i >= k {
      BitOfAnd(n, low, i - k);
    }
  }

  lemma {:induction false} BitBeyond(x: nat, n: nat, i: nat)
    requires x < Pow2(n) && n <= i
    ensures !Bit(x, i)
    decreases n
  {
    if n > 0 {
      BitBeyond(x / 2, n - 1, i - 1);
    } else {
      BitOfZero(i);
    }
  }

  /** Bit i of a hexadecimal digit. */
  function HexBit(d: nat, i: nat): bool {
    if i == 0 then d % 2 == 1 else if i == 1 then (d / 2) % 2 == 1 else if i == 2 then (d / 4) % 2 == 1
        else (d / 8) % 2 == 1
  }

  /** A bit of the lowest hexadecimal digit, or of the others. */
  lemma Digit(d: nat, rest: nat, i: nat)
    requires d < 16
    ensures Bit(d + 16 * rest, i) == if i < 4 then HexBit(d, i) else Bit(rest, i - 4)
  {
    var x := d + 16 * rest;
    var x1, x2, x3 := d / 2 + 8 * rest, d / 4 + 4 * rest, d / 8 + 2 * rest;
    assert x / 2 == x1 && x1 / 2 == x2 && x2 / 2 == x3 && x3 / 2 == rest;
    assert i > 0 ==> Bit(x, i) == Bit(x1, i - 1);
    assert i > 1 ==> Bit(x1, i - 1) == Bit(x2, i - 2);
    assert i > 2 ==> Bit(x2, i - 2) == Bit(x3, i - 3);
    assert i > 3 ==> Bit(x3, i - 3) == Bit(rest, i - 4);
  }

  /** Which bit of which of four hexadecimal digits bit i is. */
  lemma Digits(d: nat, e: nat, i: nat)
    requires d < 16 && e < 16
    ensures var x := d + 16 * (e + 16 * (d + 16 * e));
            Bit(x, i) <==> i < 16 && HexBit(if (i / 4) % 2 == 0 then d else e, i % 4)
  {
    hide Bit, HexBit;
    var y := d + 16 * e;
    Digit(d, e + 16 * y, i);
    if i >= 4 {
      Digit(e, y, i - 4);
      if i >= 8 {
        TwoDigits(d, e, i - 8);
      }
    }
  }

  lemma TwoDigits(d: nat, e: nat, i: nat)
    requires d < 16 && e < 16
    ensures Bit(d + 16 * e, i) <==> i < 8 && HexBit(if i < 4 then d else e, i % 4)
  {
    hide Bit, HexBit;
    Digit(d, e, i);
    if i >= 4 {
      Digit(e, 0, i - 4);
      if i >= 8 {
        BitOfZero(i - 8);
      }
    }
  }

  lemma MasksOfOne(i: nat)
    ensures Bit(0xAAAA, i) <==> i < 16 && (i / 1) % 2 == 1
    ensures Bit(0x5555, i) <==> i < 16 && (i / 1) % 2 == 0
  {
    hide Bit;
    Digits(10, 10, i);
    Digits(5, 5, i);
  }

  lemma MasksOfTwo(i: nat)
    ensures Bit(0xCCCC, i) <==> i < 16 && (i / 2) % 2 == 1
    ensures Bit(0x3333, i) <==> i < 16 && (i / 2) % 2 == 0
  {
    hide Bit;
    Digits(12, 12, i);
    Digits(3, 3, i);
  }

  lemma MasksOfFour(i: nat)
    ensures Bit(0xF0F0, i) <==> i < 16 && (i / 4) % 2 == 1
    ensures Bit(0x0F0F, i) <==> i < 16 && (i / 4) % 2 == 0
  {
    hide Bit;
    Digits(0, 15, i);
    Digits(15, 0, i);
  }

  lemma MasksOfEight(i: nat)
    ensures Bit(0xFF00, i) <==> i < 16 && (i / 8) % 2 == 1
    ensures Bit(0x00FF, i) <==> i < 16 && (i / 8) % 2 == 0
  {
    hide Bit;
    Digit(0, 0xFF0, i);
    Digit(15, 0xF, i);
    if i >= 4 {
      Digit(0, 0xFF, i - 4);
      Digit(15, 0, i - 4);
      if i >= 8 {
        Digit(15, 0xF, i - 8);
        BitOfZero(i - 8);
        if i >= 12 {
          Digit(15, 0, i - 12);
          if i >= 16 {
            BitOfZero(i - 16);
          }
        }
      }
    }
  }

  /** The bit that changes places with bit i when groups of k bits are swapped. */
  function Partner(i: nat, k: nat): nat
    requires k > 0
  {
    if (i / k) % 2 == 0 then i + k else if i >= k then i - k else 0
  }

  lemma SwapOne(n: nat, i: nat)
    ensures Bit(Swapped(n, 0xAAAA, 0x5555, 1), i) <==> i < 16 && Bit(n, Partner(i, 1))
  {
    SwappedBit(n, 0xAAAA, 0x5555, 1, i);
    MasksOfOne(i + 1);
    if i >= 1 {
      MasksOfOne(i - 1);
    }
  }

  lemma SwapTwo(n: nat, i: nat)
    ensures Bit(Swapped(n, 0xCCCC, 0x3333, 2), i) <==> i < 16 && Bit(n, Partner(i, 2))
  {
    SwappedBit(n, 0xCCCC, 0x3333, 2, i);
    MasksOfTwo(i + 2);
    if i >= 2 {
      MasksOfTwo(i - 2);
    }
  }

  lemma SwapFour(n: nat, i: nat)
    ensures Bit(Swapped(n, 0xF0F0, 0x0F0F, 4), i) <==> i < 16 && Bit(n, Partner(i, 4))
  {
    SwappedBit(n, 0xF0F0, 0x0F0F, 4, i);
    MasksOfFour(i + 4);
    if i >= 4 {
      MasksOfFour(i - 4);
    }
  }

  lemma SwapEight(n: nat, i: nat)
    ensures Bit(Swapped(n, 0xFF00, 0x00FF, 8), i) <==> i < 16 && Bit(n, Partner(i, 8))
  {
    SwappedBit(n, 0xFF00, 0x00FF, 8, i);
    MasksOfEight(i + 8);
    if i >= 8 {
      MasksOfEight(i - 8);
    }
  }

  /** The four swaps reverse the 16 low bits, and clear the others. */
  lemma BitReverse16Reverses(n: nat, i: nat)
    ensures Bit(BitReverse16(n), i) <==> i < 16 && Bit(n, 15 - i)
  {
    hide Bit, Swapped;
    var a := Swapped(n, 0xAAAA, 0x5555, 1);
    var b := Swapped(a, 0xCCCC, 0x3333, 2);
    var c := Swapped(b, 0xF0F0, 0x0F0F, 4);
    SwapEight(c, i);
    if i < 16 {
      var p := Partner(i, 8);
      SwapFour(b, p);
      var q := Partner(p, 4);
      SwapTwo(a, q);
      var r := Partner(q, 2);
      SwapOne(n, r);
      assert p < 16 && q < 16 && r < 16 && Partner(r, 1) == 15 - i;
    }
  }

  lemma {:induction false} SameBits(x: nat, y: nat)
    requires forall i: nat :: Bit(x, i) == Bit(y, i)
    ensures x == y
    decreases x + y
  {
    if x + y > 0 {
      assert Bit(x, 0) == Bit(y, 0);
      forall i: nat ensures Bit(x / 2, i) == Bit(y / 2, i) {
        assert Bit(x, i + 1) == Bit(y, i + 1);
      }
      SameBits(x / 2, y / 2);
    }
  }

  lemma ReversedLow(n: nat, all: seq<bool>, i: nat)
    requires i < 16 && all == Reversed(ToBits(n, 16)) && ToBits(FromBits(all), 16) == all
    ensures Bit(BitReverse16(n), i) == Bit(FromBits(all), i)
  {
    hide BitReverse16, Bit, FromBits, ToBits, Reversed;
    BitReverse16Reverses(n, i);
    BitOfToBits(FromBits(all), 16, i);
    ReversedAt(ToBits(n, 16), i);
    BitOfToBits(n, 16, 15 - i);
  }

  /** What the swaps compute: the number spelled by the 16 low bits in reverse order. */
  lemma BitReverse16Is(n: nat)
    ensures BitReverse16(n) == FromBits(Reversed(ToBits(n, 16)))
  {
    hide BitReverse16, Bit, ToBits, Reversed;
    var all := Reversed(ToBits(n, 16));
    ToBitsOfFromBits(all);
    FromBitsBound(all);
    forall i: nat ensures Bit(BitReverse16(n), i) == Bit(FromBits(all), i) {
      if i < 16 {
        ReversedLow(n, all, i);
      } else {
        BitReverse16Reverses(n, i);
        BitBeyond(FromBits(all), 16, i);
      }
    }
    SameBits(BitReverse16(n), FromBits(all));
  }

  /** Reverse 16 bits and shift away what is not wanted. */
  function BitReverse(v: nat, bits: nat): nat
    requires bits <= 16
  {
    Shr(BitReverse16(v), 16 - bits)
  }

  /** The reverse of a code, lowest bit first, is the code, highest bit first. */
  lemma BitReverseIsCode(v: nat, bits: nat)
    requires bits <= 16
    ensures ToBits(BitReverse(v, bits), bits) == MsbBits(v, bits)
    ensures BitReverse(v, bits) < Pow2(bits)
  {
    var all := Reversed(ToBits(v, 16));
    BitReverse16Is(v);
    MsbIsReversed(v, 16);
    ShrOfFromBits(all, 16 - bits);
    MsbBitsDrop(v, 16, bits);
    ToBitsOfFromBits(all[16 - bits..]);
    FromBitsBound(all[16 - bits..]);
  }

  /** Reversing 16 bits of the stream gives the number they spell, highest bit first. */
  lemma ReverseReads(x: nat)
    ensures BitReverse(x, 16) == Msb(ToBits(x, 16))
  {
    BitReverse16Is(x);
    ReversedValue(ToBits(x, 16));
  }

  lemma {:induction false} ReversedValue(b: seq<bool>)
    ensures FromBits(Reversed(b)) == Msb(b)
  {
    if b != [] {
      var front := b[..|b| - 1];
      ReversedValue(front);
      ReversedLast(b);
    }
  }

  lemma {:induction false} ReversedLast(b: seq<bool>)
    requires b != []
    ensures Reversed(b) == [b[|b| - 1]] + Reversed(b[..|b| - 1])
  {
    if |b| > 1 {
      ReversedLast(b[1..]);
      assert b[1..][..|b| - 2] == b[..|b| - 1][1..];
    }
  }
}
