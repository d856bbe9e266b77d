/** 64-bit addresses, the pages they lie in and the words they name. */
module Addresses {
  import opened PageTable

  const TABLE_PAGES: nat := 0x10_0000_0000

  /** The upper half of the address space, which belongs to the application. */
  predicate UserAddress(vaddr: nat) {
    0xffff_8000_0000_0000 <= vaddr < 0x1_0000_0000_0000_0000
  }

  /** The page an address lies in: bits 39 to 47, 30 to 38, 21 to 29 and 12 to 20. */
  function PageAt(vaddr: nat): (a: LinearAddress) {
    LinearAddress(vaddr / 0x80_0000_0000 % ENTRIES, vaddr / 0x4000_0000 % ENTRIES, vaddr / 0x20_0000 % ENTRIES,
                  vaddr / 0x1000 % ENTRIES)
  }

  /** The word of its page an address names. */
  function WordAt(vaddr: nat): (k: Index) {
    var offset := vaddr % 0x1000;
    offset / 8
  }

  lemma WordPlace(vaddr: nat)
    requires vaddr % 8 == 0
    ensures 8 * WordAt(vaddr) == vaddr % 0x1000
  {
    var n := vaddr / 8;
    assert vaddr == 8 * n && vaddr == 0x1000 * (vaddr / 0x1000) + vaddr % 0x1000;
    assert vaddr % 0x1000 == 8 * (n - 512 * (vaddr / 0x1000));
  }

  lemma UpperHalf(vaddr: nat)
    requires UserAddress(vaddr)
    ensures 256 <= PageAt(vaddr).pml4
  {
    var n := vaddr / 0x80_0000_0000;
    assert 0x1ff_ff00 <= n <= 0x1ff_ffff;
    UpperPart(n);
  }

  lemma UpperPart(n: nat)
    requires 0x1ff_ff00 <= n <= 0x1ff_ffff
    ensures n % 512 == n - 512 * 0xffff
  {
  }

  lemma Spans()
    ensures Span(0) == 1 && Span(1) == 512 && Span(2) == 0x4_0000 && Span(3) == 0x800_0000
  {
  }

  /** The position of an address's page under a top table is its page number. */
  lemma PageNumber(vaddr: nat)
    ensures Low(PageAt(vaddr), 4) == vaddr / 0x1000 % TABLE_PAGES
  {
    hide SlotStart;
    var a, n := PageAt(vaddr), vaddr / 0x1000;
    Spans();
    SlotStartTimes(a.page, 1);
    SlotStartTimes(a.dir, 2);
    SlotStartTimes(a.pdp, 3);
    SlotStartTimes(a.pml4, 4);
    assert Low(a, 1) == a.page;
    assert Low(a, 2) == a.dir * 512 + a.page;
    assert Low(a, 3) == a.pdp * 0x4_0000 + a.dir * 512 + a.page;
    assert Low(a, 4) == a.pml4 * 0x800_0000 + a.pdp * 0x4_0000 + a.dir * 512 + a.page;
    FourParts(vaddr);
  }

  lemma FourParts(vaddr: nat)
    ensures var n := vaddr / 0x1000;
      vaddr / 0x80_0000_0000 % 512 * 0x800_0000 + vaddr / 0x4000_0000 % 512 * 0x4_0000
      + vaddr / 0x20_0000 % 512 * 512 + n % 512 == n % TABLE_PAGES
  {
    var n := vaddr / 0x1000;
    var n1 := n / 512;
    var n2 := n1 / 512;
    var n3 := n2 / 512;
    assert n1 == vaddr / 0x20_0000 && n2 == vaddr / 0x4000_0000 && n3 == vaddr / 0x80_0000_0000;
    assert n == 512 * n1 + n % 512 && n1 == 512 * n2 + n1 % 512 && n2 == 512 * n3 + n2 % 512;
    var n4 := n3 / 512;
    assert n3 == 512 * n4 + n3 % 512;
    assert n == TABLE_PAGES * n4 + (n3 % 512 * 0x800_0000 + n2 % 512 * 0x4_0000 + n1 % 512 * 512 + n % 512);
  }

  /** The parts tell the pages of the upper half apart. */
  lemma SamePageIff(v: nat, w: nat)
    requires UserAddress(v) && UserAddress(w)
    ensures PageAt(v) == PageAt(w) <==> v / 0x1000 == w / 0x1000
  {
    FourParts(v);
    FourParts(w);
    var n, m := v / 0x1000, w / 0x1000;
    assert 0xf_fff8_0000_0000 <= n < 0x10_0000_0000_0000 && 0xf_fff8_0000_0000 <= m < 0x10_0000_0000_0000;
    if n % TABLE_PAGES == m % TABLE_PAGES {
      assert n / TABLE_PAGES == m / TABLE_PAGES == 0xffff;
    }
    if n == m {
      assert v / 0x20_0000 == n / 512 == w / 0x20_0000;
      assert v / 0x4000_0000 == n / 0x4_0000 == w / 0x4000_0000;
      assert v / 0x80_0000_0000 == n / 0x800_0000 == w / 0x80_0000_0000;
    }
  }
}
