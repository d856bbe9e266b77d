/** A page as the bytes a file load puts there, and as the words that page-table code sees. */
module PageContents {
  import opened Basics
  import opened PageTable

  const ADDRESS_BITS: nat := 0x100_0000_0000
  const WORD_BYTES: nat := 8

  /** A 64-bit word, split into the fields of a page-table entry. */
  function EntryOf(n: nat): Entry {
    Entry(n % 2 == 1, (n / 2) % 2 == 1, (n / 4) % 2 == 1,
          (n / 8) % 512 + 512 * (n / 4096 / ADDRESS_BITS), (n / 4096) % ADDRESS_BITS)
  }

  function NumberOf(e: Entry): nat {
    (if e.present then 1 else 0) + (if e.writable then 2 else 0) + (if e.user then 4 else 0)
    + 8 * (e.rest % 512) + 4096 * (e.addr + ADDRESS_BITS * (e.rest / 512))
  }

  /** Nothing of a word is lost. */
  lemma NumberOfEntry(n: nat)
    ensures NumberOf(EntryOf(n)) == n
  {
    var high := n / 4096;
    LowBits(n);
    assert EntryOf(n).rest % 512 == (n / 8) % 512 && EntryOf(n).rest / 512 == high / ADDRESS_BITS;
    assert high == high % ADDRESS_BITS + ADDRESS_BITS * (high / ADDRESS_BITS);
  }

  lemma LowBits(n: nat)
    ensures n == n % 2 + 2 * ((n / 2) % 2) + 4 * ((n / 4) % 2) + 8 * ((n / 8) % 512) + 4096 * (n / 4096)
  {
    var a, b, c := n / 2, n / 4, n / 8;
    assert b == a / 2 && c == b / 2 && n / 4096 == c / 512;
    assert n == 2 * a + n % 2 && a == 2 * b + a % 2 && b == 2 * c + b % 2 && c == 512 * (c / 512) + c % 512;
  }

  /** The number spelled by bytes, the lowest first. */
  function Number(bytes: seq<Byte>): nat {
    if bytes == [] then 0 else bytes[0] + 256 * Number(bytes[1..])
  }

  function WordBytes(bytes: seq<Byte>, k: Index): (word: seq<Byte>)
    requires |bytes| == ENTRIES * WORD_BYTES
    ensures |word| == WORD_BYTES && forall i :: 0 <= i < WORD_BYTES ==> word[i] == bytes[WORD_BYTES * k + i]
  {
    bytes[WORD_BYTES * k..WORD_BYTES * k + WORD_BYTES]
  }

  /** The words of a page. */
  function Packed(bytes: seq<Byte>): (page: Frame)
    requires |bytes| == ENTRIES * WORD_BYTES
    ensures forall k: Index :: page[k] == EntryOf(Number(WordBytes(bytes, k)))
  {
    seq(ENTRIES, k requires 0 <= k < ENTRIES => EntryOf(Number(WordBytes(bytes, k))))
  }

  lemma {:induction false} NumberInjective(a: seq<Byte>, b: seq<Byte>)
    requires |a| == |b| && Number(a) == Number(b)
    ensures a == b
  {
    if a != [] {
      assert Number(a) % 256 == a[0] && Number(b) % 256 == b[0];
      NumberInjective(a[1..], b[1..]);
      assert a == [a[0]] + a[1..] && b == [b[0]] + b[1..];
    }
  }

  /** The words of a page are its bytes: two pages with the same words hold the same bytes. */
  lemma PackedInjective(a: seq<Byte>, b: seq<Byte>)
    requires |a| == |b| == ENTRIES * WORD_BYTES && Packed(a) == Packed(b)
    ensures a == b
  {
    hide WordBytes, EntryOf, NumberOf, Number;
    forall k: Index ensures WordBytes(a, k) == WordBytes(b, k) {
      assert Packed(a)[k] == Packed(b)[k];
      NumberOfEntry(Number(WordBytes(a, k)));
      NumberOfEntry(Number(WordBytes(b, k)));
      NumberInjective(WordBytes(a, k), WordBytes(b, k));
    }
    forall i | 0 <= i < |a| ensures a[i] == b[i] {
      var k: Index := i / WORD_BYTES;
      assert WordBytes(a, k)[i % WORD_BYTES] == a[i] && WordBytes(b, k)[i % WORD_BYTES] == b[i];
    }
  }

  /** Byte j of a word, counted from the lowest. */
  function ByteOf(n: nat, j: nat): nat {
    if j == 0 then n % 256 else ByteOf(n / 256, j - 1)
  }

  lemma {:induction false} ByteOfNumber(bytes: seq<Byte>, j: nat)
    requires j < |bytes|
    ensures ByteOf(Number(bytes), j) == bytes[j]
  {
    var rest := Number(bytes[1..]);
    assert Number(bytes) % 256 == bytes[0] && Number(bytes) / 256 == rest;
    if j > 0 {
      ByteOfNumber(bytes[1..], j - 1);
    }
  }

  /** Read byte by byte, the lowest byte of each word first, the words of a page give its bytes. */
  lemma PackedByte(bytes: seq<Byte>, i: nat)
    requires |bytes| == ENTRIES * WORD_BYTES && i < |bytes|
    ensures ByteOf(NumberOf(Packed(bytes)[i / 8]), i % 8) == bytes[i]
  {
    hide EntryOf, NumberOf, Number, ByteOf;
    var k: Index := i / WORD_BYTES;
    NumberOfEntry(Number(WordBytes(bytes, k)));
    ByteOfNumber(WordBytes(bytes, k), i % 8);
  }

  /** A page of zeros is a table without entries. */
  lemma PackedZeros(bytes: seq<Byte>)
    requires |bytes| == ENTRIES * WORD_BYTES && forall i :: 0 <= i < |bytes| ==> bytes[i] == 0
    ensures Packed(bytes) == ZeroFrame()
  {
    forall k: Index ensures Packed(bytes)[k] == ZERO {
      ZeroNumber(WordBytes(bytes, k));
    }
    assert forall k: Index :: ZeroFrame()[k] == ZERO;
  }

  lemma {:induction false} ZeroNumber(bytes: seq<Byte>)
    requires forall i :: 0 <= i < |bytes| ==> bytes[i] == 0
    ensures Number(bytes) == 0
  {
    if bytes != [] {
      ZeroNumber(bytes[1..]);
    }
  }
}
