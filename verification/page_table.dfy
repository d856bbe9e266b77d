/**
 Four-level page tables laid out in physical frames.  A frame is 512 words; the same words are read
 as table entries or as page contents.  The writable bit of an entry doubles as an ownership mark:
 a frame reached through a writable entry belongs to the tree, one reached through a read-only leaf
 is borrowed.
 */
module PageTable {

  /** A 64-bit word, split the way PageMapEntry splits it; rest holds the bits no code looks at. */
  datatype Entry = Entry(present: bool, writable: bool, user: bool, rest: nat, addr: nat)

  const ZERO := Entry(false, false, false, 0, 0)
  const ENTRIES := 512
  function ZeroFrame(): Frame {
    seq(ENTRIES, _ => ZERO)
  }

  type Frame = f: seq<Entry> | |f| == ENTRIES witness seq(ENTRIES, _ => ZERO)
  type Memory = seq<Frame>
  type Index = i: nat | i < ENTRIES

  /** The page-selecting parts of a linear address. */
  datatype LinearAddress = LinearAddress(pml4: Index, pdp: Index, dir: Index, page: Index)

  function Part(a: LinearAddress, level: nat): Index {
    match level
    case 1 => a.page
    case 2 => a.dir
    case 3 => a.pdp
    case 4 => a.pml4
    case _ => 0
  }

  function SetPart(a: LinearAddress, level: nat, value: Index): LinearAddress {
    match level
    case 1 => a.(page := value)
    case 2 => a.(dir := value)
    case 3 => a.(pdp := value)
    case 4 => a.(pml4 := value)
    case _ => a
  }

  /** Number of pages spanned by one table of the given level. */
  function Span(level: nat): nat {
    if level == 0 then 1 else ENTRIES * Span(level - 1)
  }

  /** Where slot i begins, in pages, inside the span of a table of the given level. */
  function SlotStart(i: nat, level: nat): nat
    requires 1 <= level
  {
    if i == 0 then 0 else SlotStart(i - 1, level) + Span(level - 1)
  }

  /** Position of a page inside the span of a table of the given level. */
  function Low(a: LinearAddress, level: nat): nat {
    if level == 0 then 0 else SlotStart(Part(a, level), level) + Low(a, level - 1)
  }

  lemma {:induction false} SlotStartMono(i: nat, j: nat, level: nat)
    requires 1 <= level && i <= j
    ensures SlotStart(i, level) <= SlotStart(j, level)
  {
    if i < j {
      SlotStartMono(i, j - 1, level);
    }
  }

  lemma {:induction false} SlotStartTimes(i: nat, level: nat)
    requires 1 <= level
    ensures SlotStart(i, level) == i * Span(level - 1)
  {
    if i > 0 {
      SlotStartTimes(i - 1, level);
      assert i * Span(level - 1) == (i - 1) * Span(level - 1) + Span(level - 1);
    }
  }

  lemma SlotEnd(i: nat, level: nat)
    requires 1 <= level && i < ENTRIES
    ensures SlotStart(i, level) + Span(level - 1) == SlotStart(i + 1, level) <= Span(level)
    ensures i == ENTRIES - 1 ==> SlotStart(i, level) + Span(level - 1) == Span(level)
  {
    SlotStartMono(i + 1, ENTRIES, level);
    SlotStartTimes(ENTRIES, level);
  }

  lemma {:induction false} LowBound(a: LinearAddress, level: nat)
    ensures Low(a, level) < Span(level)
  {
    if level > 0 {
      LowBound(a, level - 1);
      SlotEnd(Part(a, level), level);
    }
  }

  // ----- Walks, tables and ownership -----

  /** The leaf entry that translates a page, or ZERO when some level is absent. */
  function Walk(mem: Memory, t: nat, level: nat, a: LinearAddress): Entry
    decreases level
  {
    if t >= |mem| then ZERO else
    var e := mem[t][Part(a, level)];
    if !e.present then ZERO
    else if level <= 1 then e
    else Walk(mem, e.addr, level - 1, a)
  }

  /** The table frames of the tree below t, t included. */
  ghost function Tables(mem: Memory, t: nat, level: nat, lo: nat): set<nat>
    decreases level, 1
  {
    if t >= |mem| then {t} else
    {t} + set i: Index, f: nat | lo <= i && f in SlotTables(mem, mem[t][i], level) :: f
  }

  ghost function SlotTables(mem: Memory, e: Entry, level: nat): set<nat>
    decreases level, 0
  {
    if e.present && level > 1 then Tables(mem, e.addr, level - 1, 0) else {}
  }

  /** The frames owned through entries lo.. of table t and of everything below them. */
  ghost function Own(mem: Memory, t: nat, level: nat, lo: nat): set<nat>
    decreases level, 1
  {
    if t >= |mem| then {} else
    set i: Index, f: nat | lo <= i && f in Slot(mem, mem[t][i], level) :: f
  }

  ghost function Slot(mem: Memory, e: Entry, level: nat): set<nat>
    decreases level, 0
  {
    if !e.present then {} else
    (if e.writable then {e.addr} else {}) + (if level > 1 then Own(mem, e.addr, level - 1, 0) else {})
  }

  ghost predicate GoodSlot(mem: Memory, e: Entry, level: nat, base: set<nat>)
    decreases level, 0
  {
    e.present ==>
      && e.user && e.addr < |mem|
      && (level > 1 ==> e.writable && Tree(mem, e.addr, level - 1, 0, base))
      && (level == 1 && !e.writable ==> e.addr in base)
  }

  /**
   Entries lo.. of t head a proper tree: no frame is owned twice, tables are always owned,
   and read-only leaves only reach frames of base.
   */
  ghost predicate Tree(mem: Memory, t: nat, level: nat, lo: nat, base: set<nat>)
    decreases level, 1
  {
    && 1 <= level
    && t < |mem| && t !in Own(mem, t, level, lo)
    && (forall i: Index :: lo <= i ==> GoodSlot(mem, mem[t][i], level, base))
    && (forall i: Index, j: Index :: lo <= i < j ==>
          Slot(mem, mem[t][i], level) !! Slot(mem, mem[t][j], level))
  }

  /** Every page under entries lo.. of t is translated alike in both memories. */
  ghost predicate SameWalks(mem: Memory, mem': Memory, t: nat, level: nat, lo: nat) {
    forall b: LinearAddress :: lo <= Part(b, level) ==> Walk(mem', t, level, b) == Walk(mem, t, level, b)
  }

  // ----- Framing -----

  lemma SlotInTables(mem: Memory, t: nat, level: nat, lo: nat, i: Index)
    requires t < |mem| && lo <= i
    ensures SlotTables(mem, mem[t][i], level) <= Tables(mem, t, level, lo)
  {
  }

  lemma SlotInOwn(mem: Memory, t: nat, level: nat, lo: nat, i: Index)
    requires t < |mem| && lo <= i
    ensures Slot(mem, mem[t][i], level) <= Own(mem, t, level, lo)
  {
  }

  lemma {:induction false} TablesOwned(mem: Memory, t: nat, level: nat, lo: nat, base: set<nat>)
    requires Tree(mem, t, level, lo, base)
    ensures Tables(mem, t, level, lo) <= {t} + Own(mem, t, level, lo)
    decreases level
  {
    forall i: Index | lo <= i && mem[t][i].present && level > 1
      ensures SlotTables(mem, mem[t][i], level) <= Slot(mem, mem[t][i], level)
    {
      assert GoodSlot(mem, mem[t][i], level, base);
      TablesOwned(mem, mem[t][i].addr, level - 1, 0, base);
    }
  }

  /** A tree depends only on its table frames. */
  lemma {:induction false} TreeFrame(mem: Memory, mem': Memory, t: nat, level: nat, lo: nat, base: set<nat>)
    requires Tree(mem, t, level, lo, base) && |mem'| == |mem|
    requires forall f :: f in Tables(mem, t, level, lo) ==> f < |mem| && mem'[f] == mem[f]
    ensures Tree(mem', t, level, lo, base)
    ensures Own(mem', t, level, lo) == Own(mem, t, level, lo)
    ensures Tables(mem', t, level, lo) == Tables(mem, t, level, lo)
    ensures SameWalks(mem, mem', t, level, lo)
    decreases level
  {
    assert t in Tables(mem, t, level, lo);
    forall i: Index | lo <= i
      ensures Slot(mem', mem[t][i], level) == Slot(mem, mem[t][i], level)
      ensures SlotTables(mem', mem[t][i], level) == SlotTables(mem, mem[t][i], level)
      ensures GoodSlot(mem', mem[t][i], level, base)
      ensures mem[t][i].present && level > 1 ==> SameWalks(mem, mem', mem[t][i].addr, level - 1, 0)
    {
      assert GoodSlot(mem, mem[t][i], level, base);
      if mem[t][i].present && level > 1 {
        SlotInTables(mem, t, level, lo, i);
        TreeFrame(mem, mem', mem[t][i].addr, level - 1, 0, base);
      }
    }
    assert mem'[t] == mem[t];
  }

  /** A tree is untouched when the frames it owns keep their contents. */
  lemma OwnFrame(mem: Memory, mem': Memory, t: nat, level: nat, lo: nat, base: set<nat>)
    requires Tree(mem, t, level, lo, base) && |mem'| == |mem|
    requires forall f :: f in Own(mem, t, level, lo) + {t} && f < |mem| ==> mem'[f] == mem[f]
    ensures Tree(mem', t, level, lo, base)
    ensures Own(mem', t, level, lo) == Own(mem, t, level, lo)
    ensures SameWalks(mem, mem', t, level, lo)
  {
    TablesOwned(mem, t, level, lo, base);
    TablesInMemory(mem, t, level, lo, base);
    TreeFrame(mem, mem', t, level, lo, base);
  }

  lemma {:induction false} TablesInMemory(mem: Memory, t: nat, level: nat, lo: nat, base: set<nat>)
    requires Tree(mem, t, level, lo, base)
    ensures forall f :: f in Tables(mem, t, level, lo) ==> f < |mem|
    decreases level
  {
    forall i: Index | lo <= i && mem[t][i].present && level > 1
      ensures forall f :: f in SlotTables(mem, mem[t][i], level) ==> f < |mem|
    {
      assert GoodSlot(mem, mem[t][i], level, base);
      TablesInMemory(mem, mem[t][i].addr, level - 1, 0, base);
    }
  }

  lemma {:induction false} TreeMono(mem: Memory, t: nat, level: nat, lo: nat, base: set<nat>, base': set<nat>)
    requires Tree(mem, t, level, lo, base) && base <= base'
    ensures Tree(mem, t, level, lo, base')
    decreases level
  {
    forall i: Index | lo <= i ensures GoodSlot(mem, mem[t][i], level, base') {
      assert GoodSlot(mem, mem[t][i], level, base);
      if mem[t][i].present && level > 1 {
        TreeMono(mem, mem[t][i].addr, level - 1, 0, base, base');
      }
    }
  }

  // ----- A tree inside the set of used frames -----

  /** A proper tree whose frames are in use and are apart from the frames of base. */
  ghost predicate Space(mem: Memory, used: set<nat>, t: nat, level: nat, lo: nat, base: set<nat>) {
    && Tree(mem, t, level, lo, base)
    && Own(mem, t, level, lo) + {t} <= used
    && base <= used
    && base !! Own(mem, t, level, lo) + {t}
    && forall f :: f in used ==> f < |mem|
  }

  lemma TableInUse(mem: Memory, used: set<nat>, t: nat, level: nat, lo: nat, base: set<nat>)
    requires Space(mem, used, t, level, lo, base)
    ensures t < |mem| && t in used
  {
  }

  /** The frames of base, and the new frames that the tree has not come to own. */
  ghost function NewBase(base: set<nat>, used: set<nat>, used': set<nat>, own': set<nat>): set<nat> {
    base + ((used' - used) - own')
  }

  /** From one state to the next the tree at t only grew, out of frames that were free. */
  ghost predicate Grows(mem: Memory, used: set<nat>, mem': Memory, used': set<nat>,
                        t: nat, level: nat, lo: nat, base: set<nat>)
  {
    && |mem'| == |mem| && used <= used'
    && t < |mem|
    && Space(mem', used', t, level, lo, NewBase(base, used, used', Own(mem', t, level, lo)))
    && Own(mem, t, level, lo) <= Own(mem', t, level, lo) <= Own(mem, t, level, lo) + (used' - used)
    && (forall f :: f in used && f < |mem| && f != t && f !in Own(mem, t, level, lo) ==> mem'[f] == mem[f])
    && (forall i: Index :: i < lo ==> mem'[t][i] == mem[t][i])
  }

  lemma GrowsRefl(mem: Memory, used: set<nat>, t: nat, level: nat, lo: nat, base: set<nat>)
    requires Space(mem, used, t, level, lo, base)
    ensures Grows(mem, used, mem, used, t, level, lo, base)
  {
    assert NewBase(base, used, used, Own(mem, t, level, lo)) == base;
  }

  lemma GrowsTrans(m0: Memory, u0: set<nat>, m1: Memory, u1: set<nat>, m2: Memory, u2: set<nat>,
                   t: nat, level: nat, lo: nat, base: set<nat>)
    requires Own(m0, t, level, lo) + {t} <= u0
    requires Grows(m0, u0, m1, u1, t, level, lo, base)
    requires Grows(m1, u1, m2, u2, t, level, lo, NewBase(base, u0, u1, Own(m1, t, level, lo)))
    ensures Grows(m0, u0, m2, u2, t, level, lo, base)
    ensures NewBase(NewBase(base, u0, u1, Own(m1, t, level, lo)), u1, u2, Own(m2, t, level, lo))
         == NewBase(base, u0, u2, Own(m2, t, level, lo))
  {
    var o1, o2 := Own(m1, t, level, lo), Own(m2, t, level, lo);
    forall f ensures f in NewBase(NewBase(base, u0, u1, o1), u1, u2, o2) <==> f in NewBase(base, u0, u2, o2) {
    }
    assert NewBase(NewBase(base, u0, u1, o1), u1, u2, o2) == NewBase(base, u0, u2, o2);
  }

  /** Leaf translations outside slot i of t, and the pages they reach, are untouched. */
  ghost predicate OutsideSame(mem: Memory, mem': Memory, t: nat, level: nat, lo: nat, i: Index) {
    forall b: LinearAddress :: lo <= Part(b, level) && Part(b, level) != i ==>
      SamePageThrough(mem, mem', t, level, b)
  }

  ghost predicate SamePageThrough(mem: Memory, mem': Memory, t: nat, level: nat, b: LinearAddress) {
    var w := Walk(mem, t, level, b);
    && Walk(mem', t, level, b) == w
    && (w.present ==> w.addr < |mem| && w.addr < |mem'| && mem'[w.addr] == mem[w.addr])
  }

  /** The frame a present page reaches is owned when the leaf is writable and in base otherwise. */
  lemma {:induction false} WalkReaches(mem: Memory, t: nat, level: nat, lo: nat, base: set<nat>, b: LinearAddress)
    requires Tree(mem, t, level, lo, base) && lo <= Part(b, level)
    requires Walk(mem, t, level, b).present
    ensures var w := Walk(mem, t, level, b);
            && w.user && w.addr < |mem|
            && w.addr in (if w.writable then Slot(mem, mem[t][Part(b, level)], level) else base)
    decreases level
  {
    var e := mem[t][Part(b, level)];
    assert GoodSlot(mem, e, level, base);
    if level > 1 {
      WalkReaches(mem, e.addr, level - 1, 0, base, b);
      SlotInOwn(mem, e.addr, level - 1, 0, Part(b, level - 1));
    }
  }

  /**
   One slot of t, and frames below it, change: the slot keeps what it owned and may gain free frames.
   Everything else under t stays as it was.
   */
  lemma ChangeSlot(mem: Memory, used: set<nat>, mem': Memory, used': set<nat>,
                   t: nat, level: nat, lo: nat, base: set<nat>, i: Index)
    requires Space(mem, used, t, level, lo, base) && lo <= i
    requires |mem'| == |mem| && used <= used' && forall f :: f in used' ==> f < |mem|
    requires forall f :: f in used && f != t && f !in Slot(mem, mem[t][i], level) ==> mem'[f] == mem[f]
    requires forall j: Index :: j != i ==> mem'[t][j] == mem[t][j]
    requires var s, s' := Slot(mem, mem[t][i], level), Slot(mem', mem'[t][i], level);
             && s <= s' <= s + (used' - used)
             && GoodSlot(mem', mem'[t][i], level, NewBase(base, used, used', s'))
    ensures Grows(mem, used, mem', used', t, level, lo, base)
    ensures var s, s' := Slot(mem, mem[t][i], level), Slot(mem', mem'[t][i], level);
            && Own(mem', t, level, lo) == Own(mem, t, level, lo) + (s' - s)
            && NewBase(base, used, used', s') == NewBase(base, used, used', Own(mem', t, level, lo))
    ensures OutsideSame(mem, mem', t, level, lo, i)
  {
    var s, s' := Slot(mem, mem[t][i], level), Slot(mem', mem'[t][i], level);
    var base' := NewBase(base, used, used', s');
    SlotInOwn(mem, t, level, lo, i);
    forall j: Index | lo <= j && j != i
      ensures Slot(mem', mem[t][j], level) == Slot(mem, mem[t][j], level) <= Own(mem, t, level, lo)
      ensures GoodSlot(mem', mem[t][j], level, base')
      ensures s' !! Slot(mem, mem[t][j], level)
      ensures mem[t][j].present && level > 1 ==> SameWalks(mem, mem', mem[t][j].addr, level - 1, 0)
    {
      KeepSlot(mem, mem', t, level, lo, base, i, j, used);
      SlotMono(mem', mem[t][j], level, base, base');
      assert s !! Slot(mem, mem[t][j], level);
    }
    ChangeSlotOwn(mem, mem', t, level, lo, i);
    assert base' == NewBase(base, used, used', Own(mem', t, level, lo));
    forall j: Index, k: Index | lo <= j < k
      ensures Slot(mem', mem'[t][j], level) !! Slot(mem', mem'[t][k], level)
    {
      assert Slot(mem, mem[t][j], level) !! Slot(mem, mem[t][k], level);
    }
    forall j: Index | lo <= j ensures GoodSlot(mem', mem'[t][j], level, base') {
    }
    forall b: LinearAddress | lo <= Part(b, level) && Part(b, level) != i
      ensures SamePageThrough(mem, mem', t, level, b)
    {
      var j := Part(b, level);
      if Walk(mem, t, level, b).present {
        WalkReaches(mem, t, level, lo, base, b);
      }
    }
  }

  lemma SlotMono(mem: Memory, e: Entry, level: nat, base: set<nat>, base': set<nat>)
    requires GoodSlot(mem, e, level, base) && base <= base'
    ensures GoodSlot(mem, e, level, base')
  {
    if e.present && level > 1 {
      TreeMono(mem, e.addr, level - 1, 0, base, base');
    }
  }

  lemma KeepSlot(mem: Memory, mem': Memory, t: nat, level: nat, lo: nat, base: set<nat>, i: Index, j: Index,
                 used: set<nat>)
    requires Space(mem, used, t, level, lo, base) && lo <= i && lo <= j && j != i && |mem'| == |mem|
    requires forall f :: f in used && f != t && f !in Slot(mem, mem[t][i], level) ==> mem'[f] == mem[f]
    ensures Slot(mem', mem[t][j], level) == Slot(mem, mem[t][j], level) <= Own(mem, t, level, lo)
    ensures GoodSlot(mem', mem[t][j], level, base)
    ensures mem[t][j].present && level > 1 ==> SameWalks(mem, mem', mem[t][j].addr, level - 1, 0)
  {
    assert GoodSlot(mem, mem[t][j], level, base);
    assert Slot(mem, mem[t][i], level) !! Slot(mem, mem[t][j], level);
    SlotInOwn(mem, t, level, lo, j);
    if mem[t][j].present && level > 1 {
      OwnFrame(mem, mem', mem[t][j].addr, level - 1, 0, base);
    }
  }

  lemma ChangeSlotOwn(mem: Memory, mem': Memory, t: nat, level: nat, lo: nat, i: Index)
    requires t < |mem| == |mem'| && lo <= i
    requires forall j: Index :: j != i ==> mem'[t][j] == mem[t][j]
    requires Slot(mem, mem[t][i], level) <= Slot(mem', mem'[t][i], level)
    requires forall j: Index :: lo <= j && j != i ==>
      && Slot(mem', mem[t][j], level) == Slot(mem, mem[t][j], level)
      && Slot(mem', mem'[t][i], level) !! Slot(mem, mem[t][j], level)
    ensures Own(mem', t, level, lo)
         == Own(mem, t, level, lo) + (Slot(mem', mem'[t][i], level) - Slot(mem, mem[t][i], level))
  {
    var gain := Slot(mem', mem'[t][i], level) - Slot(mem, mem[t][i], level);
    forall f ensures f in Own(mem', t, level, lo) <==> f in Own(mem, t, level, lo) + gain {
      if f in gain {
        assert f in Slot(mem', mem'[t][i], level);
      }
      if f in Own(mem, t, level, lo) {
        var j: Index :| lo <= j && f in Slot(mem, mem[t][j], level);
        assert f in Slot(mem', mem'[t][j], level);
      }
      if f in Own(mem', t, level, lo) {
        var j: Index :| lo <= j && f in Slot(mem', mem'[t][j], level);
        assert f in Slot(mem, mem[t][j], level) || f in gain;
      }
    }
  }

  /** Growth of the table behind one slot is growth of the table above. */
  lemma Descend(mem: Memory, used: set<nat>, mem': Memory, used': set<nat>,
                t: nat, level: nat, lo: nat, base: set<nat>, i: Index)
    requires Space(mem, used, t, level, lo, base)
    requires level > 1 && lo <= i && mem[t][i].present
    requires Grows(mem, used, mem', used', mem[t][i].addr, level - 1, 0, base)
    ensures Grows(mem, used, mem', used', t, level, lo, base)
    ensures var c := mem[t][i].addr;
            && Own(mem', t, level, lo)
               == Own(mem, t, level, lo) + (Own(mem', c, level - 1, 0) - Own(mem, c, level - 1, 0))
            && NewBase(base, used, used', Own(mem', c, level - 1, 0))
               == NewBase(base, used, used', Own(mem', t, level, lo))
    ensures OutsideSame(mem, mem', t, level, lo, i)
    ensures mem'[t] == mem[t]
  {
    var c := mem[t][i].addr;
    assert GoodSlot(mem, mem[t][i], level, base);
    SlotInOwn(mem, t, level, lo, i);
    assert mem'[t] == mem[t];
    assert NewBase(base, used, used', Own(mem', c, level - 1, 0))
        == NewBase(base, used, used', Slot(mem', mem'[t][i], level));
    ChangeSlot(mem, used, mem', used', t, level, lo, base, i);
  }

  /** An address space seen from inside: the table behind a slot is itself a space. */
  lemma ChildSpace(mem: Memory, used: set<nat>, t: nat, level: nat, lo: nat, base: set<nat>, i: Index)
    requires Space(mem, used, t, level, lo, base)
    requires level > 1 && lo <= i && mem[t][i].present
    ensures Space(mem, used, mem[t][i].addr, level - 1, 0, base)
    ensures t != mem[t][i].addr && t !in Own(mem, mem[t][i].addr, level - 1, 0)
    ensures Own(mem, mem[t][i].addr, level - 1, 0) + {mem[t][i].addr} <= Own(mem, t, level, lo)
  {
    assert GoodSlot(mem, mem[t][i], level, base);
    SlotInOwn(mem, t, level, lo, i);
  }
}
