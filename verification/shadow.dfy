/** The shadow of a tree of tables: the same tables, with all pages read-only, so that it owns its tables only. */
module Shadow {
  import opened PageTable
  import opened PageMapping
  import opened Permission

  ghost predicate ReadOnly(mem: Memory, t: nat, level: nat, lo: nat) {
    forall b: LinearAddress :: lo <= Part(b, level) && Walk(mem, t, level, b).present ==>
        !Walk(mem, t, level, b).writable
  }

  ghost predicate ShadowOf(mem: Memory, used: set<nat>, t: nat, level: nat, lo: nat, s: Memory, base: set<nat>) {
    Alike(mem, s) && Space(s, used, t, level, lo, base) && ReadOnly(s, t, level, lo)
  }

  /** The tables below t are a proper tree of frames in use, whatever the permissions of the pages. */
  ghost predicate InShape(mem: Memory, used: set<nat>, t: nat, level: nat, lo: nat) {
    exists s, base :: ShadowOf(mem, used, t, level, lo, s, base)
  }

  lemma ReadOnlyCompatible(s: Memory, t: nat, level: nat, lo: nat, from: nat, to: nat)
    requires ReadOnly(s, t, level, lo)
    ensures Compatible(s, t, level, lo, from, to, false)
  {
  }

  lemma StaysReadOnly(s: Memory, used: set<nat>, s': Memory, used': set<nat>, t: nat, level: nat, lo: nat,
                      base: set<nat>, from: nat, to: nat)
    requires ReadOnly(s, t, level, lo) && Setup(s, used, s', used', t, level, lo, base, from, to, false)
    ensures ReadOnly(s', t, level, lo)
  {
    forall b: LinearAddress | lo <= Part(b, level) && Walk(s', t, level, b).present
      ensures !Walk(s', t, level, b).writable
    {
      assert PageEffect(s, used, s', used', t, level, b, InRange(b, level, from, to), false);
    }
  }

  /** The tables whose entries are pages. */
  ghost function LeafTables(mem: Memory, t: nat, level: nat, lo: nat): set<nat>
    decreases level, 1
  {
    if level <= 1 || t >= |mem| then {t}
    else set i: Index, f: nat | lo <= i && f in SlotLeafTables(mem, mem[t][i], level) :: f
  }

  ghost function SlotLeafTables(mem: Memory, e: Entry, level: nat): set<nat>
    decreases level, 0
  {
    if e.present && level > 1 then LeafTables(mem, e.addr, level - 1, 0) else {}
  }

  function ReadOnlyFrame(f: Frame): (r: Frame)
    ensures forall i: Index :: r[i] == if f[i].present then f[i].(writable := false) else f[i]
  {
    seq(ENTRIES, i requires 0 <= i < ENTRIES => if f[i].present then f[i].(writable := false) else f[i])
  }

  ghost function Strip(mem: Memory, leaves: set<nat>): (s: Memory)
    ensures |s| == |mem| && forall f :: 0 <= f < |mem| ==> s[f] == if f in leaves then ReadOnlyFrame(mem[f]) else mem[f]
  {
    seq(|mem|, f requires 0 <= f < |mem| => if f in leaves then ReadOnlyFrame(mem[f]) else mem[f])
  }

  lemma StripAlike(mem: Memory, leaves: set<nat>)
    ensures Alike(mem, Strip(mem, leaves))
  {
  }

  lemma {:induction false} LeavesAreTables(mem: Memory, t: nat, level: nat, lo: nat)
    ensures LeafTables(mem, t, level, lo) <= Tables(mem, t, level, lo)
    decreases level
  {
    if level > 1 && t < |mem| {
      forall i: Index | lo <= i ensures SlotLeafTables(mem, mem[t][i], level) <= SlotTables(mem, mem[t][i], level) {
        if mem[t][i].present {
          LeavesAreTables(mem, mem[t][i].addr, level - 1, 0);
        }
      }
    }
  }

  /** What a tree owns apart from its tables: its own pages. */
  ghost predicate PagesIn(mem: Memory, t: nat, level: nat, lo: nat, base: set<nat>) {
    forall f :: f in Own(mem, t, level, lo) && f !in Tables(mem, t, level, lo) ==> f in base
  }

  ghost predicate Stripped(mem: Memory, s: Memory, t: nat, level: nat, lo: nat, leaves: set<nat>) {
    && |s| == |mem|
    && forall f :: f in Tables(mem, t, level, lo) && f < |mem| ==>
         && s[f] == (if f in leaves then ReadOnlyFrame(mem[f]) else mem[f])
         && (f in leaves <==> f in LeafTables(mem, t, level, lo))
  }

  /** The tables behind one slot are apart from what another slot owns. */
  lemma SlotsApart(mem: Memory, t: nat, level: nat, lo: nat, base: set<nat>, i: Index, j: Index)
    requires Tree(mem, t, level, lo, base) && lo <= i && lo <= j && j != i
    ensures SlotTables(mem, mem[t][j], level) !! Slot(mem, mem[t][i], level)
  {
    assert if i < j then Slot(mem, mem[t][i], level) !! Slot(mem, mem[t][j], level)
           else Slot(mem, mem[t][j], level) !! Slot(mem, mem[t][i], level);
    SlotOwnsTables(mem, t, level, lo, base, j);
  }

  lemma SlotOwnsTables(mem: Memory, t: nat, level: nat, lo: nat, base: set<nat>, i: Index)
    requires Tree(mem, t, level, lo, base) && lo <= i
    ensures SlotTables(mem, mem[t][i], level) <= Slot(mem, mem[t][i], level) <= Own(mem, t, level, lo)
  {
    SlotInOwn(mem, t, level, lo, i);
    assert GoodSlot(mem, mem[t][i], level, base);
    if mem[t][i].present && level > 1 {
      TablesOwned(mem, mem[t][i].addr, level - 1, 0, base);
    }
  }

  /** A table behind slot i is behind no other slot, and is not t. */
  lemma BehindOneSlot(mem: Memory, t: nat, level: nat, lo: nat, base: set<nat>, i: Index, f: nat)
    requires Tree(mem, t, level, lo, base) && lo <= i && f in Slot(mem, mem[t][i], level)
    ensures f in Tables(mem, t, level, lo) <==> f in SlotTables(mem, mem[t][i], level)
    ensures level > 1 ==> (f in LeafTables(mem, t, level, lo) <==> f in SlotLeafTables(mem, mem[t][i], level))
  {
    hide Slot, SlotTables, SlotLeafTables, Tree, Own;
    NotTop(mem, t, level, lo, base, i, f);
    SlotInTables(mem, t, level, lo, i);
    forall j: Index | lo <= j && j != i ensures f !in SlotTables(mem, mem[t][j], level) {
      SlotsApart(mem, t, level, lo, base, i, j);
    }
    forall j: Index | lo <= j ensures SlotLeafTables(mem, mem[t][j], level) <= SlotTables(mem, mem[t][j], level) {
      SlotLeavesAreTables(mem, mem[t][j], level);
    }
  }

  lemma NotTop(mem: Memory, t: nat, level: nat, lo: nat, base: set<nat>, i: Index, f: nat)
    requires Tree(mem, t, level, lo, base) && lo <= i && f in Slot(mem, mem[t][i], level)
    ensures f != t && t < |mem|
  {
    SlotInOwn(mem, t, level, lo, i);
  }

  lemma SlotLeavesAreTables(mem: Memory, e: Entry, level: nat)
    ensures SlotLeafTables(mem, e, level) <= SlotTables(mem, e, level)
  {
    if e.present && level > 1 {
      LeavesAreTables(mem, e.addr, level - 1, 0);
    }
  }

  lemma StripChild(mem: Memory, s: Memory, t: nat, level: nat, lo: nat, base: set<nat>, base': set<nat>,
                   leaves: set<nat>, i: Index)
    requires Tree(mem, t, level, lo, base) && Stripped(mem, s, t, level, lo, leaves)
    requires PagesIn(mem, t, level, lo, base')
    requires level > 1 && lo <= i && mem[t][i].present
    ensures Stripped(mem, s, mem[t][i].addr, level - 1, 0, leaves) && PagesIn(mem, mem[t][i].addr, level - 1, 0, base')
  {
    hide Tree, Own, Tables, LeafTables;
    TreeTop(mem, t, level, lo, base);
    var c := mem[t][i].addr;
    SlotInTables(mem, t, level, lo, i);
    SlotOwnsTables(mem, t, level, lo, base, i);
    forall f | f in Tables(mem, c, level - 1, 0)
      ensures f in LeafTables(mem, t, level, lo) <==> f in LeafTables(mem, c, level - 1, 0)
    {
      BehindOneSlot(mem, t, level, lo, base, i, f);
    }
    forall f | f in Own(mem, c, level - 1, 0) && f !in Tables(mem, c, level - 1, 0) ensures f in base' {
      BehindOneSlot(mem, t, level, lo, base, i, f);
    }
  }

  /** The top of a tree above level 1 is not one of its leaf tables. */
  lemma TopNotLeaf(mem: Memory, t: nat, level: nat, lo: nat, base: set<nat>)
    requires Tree(mem, t, level, lo, base) && level > 1
    ensures t !in LeafTables(mem, t, level, lo)
  {
    if t in LeafTables(mem, t, level, lo) {
      var i: Index :| lo <= i && t in SlotLeafTables(mem, mem[t][i], level);
      LeavesAreTables(mem, mem[t][i].addr, level - 1, 0);
      assert GoodSlot(mem, mem[t][i], level, base);
      TablesOwned(mem, mem[t][i].addr, level - 1, 0, base);
      SlotInOwn(mem, t, level, lo, i);
    }
  }

  /** One slot, stripped: it owns the tables behind it, and no page. */
  ghost predicate SlotStripped(mem: Memory, s: Memory, e: Entry, e': Entry, level: nat, base': set<nat>) {
    && Slot(s, e', level) == SlotTables(mem, e, level)
    && GoodSlot(s, e', level, base')
    && (level > 1 && e.present ==> ReadOnly(s, e.addr, level - 1, 0))
  }

  lemma {:induction false} StripTree(mem: Memory, s: Memory, t: nat, level: nat, lo: nat, base: set<nat>,
                                     base': set<nat>,
                                     leaves: set<nat>)
    requires Tree(mem, t, level, lo, base) && Stripped(mem, s, t, level, lo, leaves)
    requires base <= base' && PagesIn(mem, t, level, lo, base')
    ensures Tree(s, t, level, lo, base') && ReadOnly(s, t, level, lo)
    ensures Own(s, t, level, lo) == Tables(mem, t, level, lo) - {t}
    decreases level
  {
    assert t in Tables(mem, t, level, lo);
    forall i: Index | lo <= i
      ensures s[t][i].present == mem[t][i].present && s[t][i].addr == mem[t][i].addr
      ensures SlotStripped(mem, s, mem[t][i], s[t][i], level, base')
      ensures level == 1 && s[t][i].present ==> !s[t][i].writable
    {
      StripSlot(mem, s, t, level, lo, base, base', leaves, i);
    }
    StrippedOwn(mem, s, t, level, lo, base, base');
  }

  lemma StripSlot(mem: Memory, s: Memory, t: nat, level: nat, lo: nat, base: set<nat>, base': set<nat>,
                  leaves: set<nat>, i: Index)
    requires Tree(mem, t, level, lo, base) && Stripped(mem, s, t, level, lo, leaves)
    requires base <= base' && PagesIn(mem, t, level, lo, base') && lo <= i
    ensures s[t][i].present == mem[t][i].present && s[t][i].addr == mem[t][i].addr
    ensures SlotStripped(mem, s, mem[t][i], s[t][i], level, base')
    ensures level == 1 && s[t][i].present ==> !s[t][i].writable
    decreases level, 0
  {
    hide Tree, Own, Tables, Stripped;
    TreeTop(mem, t, level, lo, base);
    if level == 1 {
      StripPage(mem, s, t, lo, base, base', leaves, i);
    } else {
      SameEntry(mem, s, t, level, lo, base, leaves, i);
      if mem[t][i].present {
        var c := mem[t][i].addr;
        StripChild(mem, s, t, level, lo, base, base', leaves, i);
        ChildTree(mem, t, level, lo, base, i);
        StripTree(mem, s, c, level - 1, 0, base, base', leaves);
        TopIsTable(mem, c, level - 1, 0);
      }
    }
  }

  lemma StripPage(mem: Memory, s: Memory, t: nat, lo: nat, base: set<nat>, base': set<nat>, leaves: set<nat>, i: Index)
    requires Tree(mem, t, 1, lo, base) && Stripped(mem, s, t, 1, lo, leaves)
    requires base <= base' && PagesIn(mem, t, 1, lo, base') && lo <= i
    ensures s[t][i] == if mem[t][i].present then mem[t][i].(writable := false) else mem[t][i]
    ensures SlotStripped(mem, s, mem[t][i], s[t][i], 1, base')
  {
    var e := mem[t][i];
    assert t in Tables(mem, t, 1, lo) && t in LeafTables(mem, t, 1, lo);
    assert GoodSlot(mem, e, 1, base);
    SlotInOwn(mem, t, 1, lo, i);
    if e.present && e.writable {
      assert e.addr in Slot(mem, e, 1) && e.addr !in Tables(mem, t, 1, lo);
    }
  }

  lemma SameEntry(mem: Memory, s: Memory, t: nat, level: nat, lo: nat, base: set<nat>, leaves: set<nat>, i: Index)
    requires Tree(mem, t, level, lo, base) && Stripped(mem, s, t, level, lo, leaves) && level > 1 && lo <= i
    ensures |s| == |mem| && s[t] == mem[t]
    ensures mem[t][i].present ==> mem[t][i].user && mem[t][i].writable && mem[t][i].addr < |mem|
  {
    TopIsTable(mem, t, level, lo);
    TopNotLeaf(mem, t, level, lo, base);
    assert GoodSlot(mem, mem[t][i], level, base);
  }

  lemma ChildTree(mem: Memory, t: nat, level: nat, lo: nat, base: set<nat>, i: Index)
    requires Tree(mem, t, level, lo, base) && level > 1 && lo <= i && mem[t][i].present
    ensures Tree(mem, mem[t][i].addr, level - 1, 0, base)
  {
    assert GoodSlot(mem, mem[t][i], level, base);
  }

  /** The slots put together. */
  lemma StrippedOwn(mem: Memory, s: Memory, t: nat, level: nat, lo: nat, base: set<nat>, base': set<nat>)
    requires Tree(mem, t, level, lo, base) && |s| == |mem|
    requires forall i: Index :: lo <= i ==> SlotStripped(mem, s, mem[t][i], s[t][i], level, base')
    requires forall i: Index :: lo <= i ==> s[t][i].present == mem[t][i].present && s[t][i].addr == mem[t][i].addr
    requires level == 1 ==> forall i: Index :: lo <= i && s[t][i].present ==> !s[t][i].writable
    ensures Tree(s, t, level, lo, base') && ReadOnly(s, t, level, lo)
    ensures Own(s, t, level, lo) == Tables(mem, t, level, lo) - {t}
  {
    TablesOwned(mem, t, level, lo, base);
    forall i: Index | lo <= i
      ensures Slot(s, s[t][i], level) == SlotTables(mem, mem[t][i], level) <= Slot(mem, mem[t][i], level)
      ensures GoodSlot(s, s[t][i], level, base')
      ensures t !in SlotTables(mem, mem[t][i], level)
    {
      assert SlotStripped(mem, s, mem[t][i], s[t][i], level, base');
      assert GoodSlot(mem, mem[t][i], level, base);
      SlotInOwn(mem, t, level, lo, i);
      if mem[t][i].present && level > 1 {
        TablesOwned(mem, mem[t][i].addr, level - 1, 0, base);
      }
    }
    forall i: Index, j: Index | lo <= i < j ensures Slot(s, s[t][i], level) !! Slot(s, s[t][j], level) {
      assert Slot(mem, mem[t][i], level) !! Slot(mem, mem[t][j], level);
    }
    forall f ensures f in Own(s, t, level, lo) <==> f in Tables(mem, t, level, lo) - {t} {
      if f in Own(s, t, level, lo) {
        var i: Index :| lo <= i && f in Slot(s, s[t][i], level);
        assert f in SlotTables(mem, mem[t][i], level);
      }
      if f in Tables(mem, t, level, lo) - {t} {
        var i: Index :| lo <= i && f in SlotTables(mem, mem[t][i], level);
        assert f in Slot(s, s[t][i], level);
      }
    }
    forall b: LinearAddress | lo <= Part(b, level) && Walk(s, t, level, b).present
      ensures !Walk(s, t, level, b).writable
    {
      assert SlotStripped(mem, s, mem[t][Part(b, level)], s[t][Part(b, level)], level, base');
    }
  }

  /** A space in order is in shape. */
  lemma SpaceInShape(mem: Memory, used: set<nat>, t: nat, level: nat, lo: nat, base: set<nat>)
    requires Space(mem, used, t, level, lo, base)
    ensures InShape(mem, used, t, level, lo)
  {
    hide Tree, Own, Tables, LeafTables;
    var leaves := LeafTables(mem, t, level, lo);
    var s := Strip(mem, leaves);
    var base' := base + (Own(mem, t, level, lo) - Tables(mem, t, level, lo));
    StripAlike(mem, leaves);
    StripSpace(mem, used, s, t, level, lo, base, base', leaves);
    assert ShadowOf(mem, used, t, level, lo, s, base');
  }

  /** After a run of mapping, seen through a shadow, the tables are in shape again. */
  lemma ShapeAfter(m1: Memory, s0: Memory, u0: set<nat>, s1: Memory, u1: set<nat>, t: nat, level: nat, lo: nat,
                   base: set<nat>, from: nat, to: nat, flag: bool)
    requires Alike(m1, s1) && Setup(s0, u0, s1, u1, t, level, lo, base, from, to, flag)
    requires m1 == s1 || (!flag && ReadOnly(s0, t, level, lo))
    ensures InShape(m1, u1, t, level, lo)
  {
    hide Setup, Own, Space;
    var base' := NewBase(base, u0, u1, Own(s1, t, level, lo));
    SetupSpace(s0, u0, s1, u1, t, level, lo, base, base', from, to, flag);
    if m1 == s1 {
      SpaceInShape(m1, u1, t, level, lo, base');
    } else {
      StaysReadOnly(s0, u0, s1, u1, t, level, lo, base, from, to);
      assert ShadowOf(m1, u1, t, level, lo, s1, base');
    }
  }

  lemma StripSpace(mem: Memory, used: set<nat>, s: Memory, t: nat, level: nat, lo: nat, base: set<nat>, base': set<nat>,
                   leaves: set<nat>)
    requires Space(mem, used, t, level, lo, base) && Stripped(mem, s, t, level, lo, leaves)
    requires base' == base + (Own(mem, t, level, lo) - Tables(mem, t, level, lo))
    ensures Space(s, used, t, level, lo, base') && ReadOnly(s, t, level, lo)
  {
    hide Tree, Own, Tables, LeafTables;
    StripTree(mem, s, t, level, lo, base, base', leaves);
    TablesOwned(mem, t, level, lo, base);
    TopIsTable(mem, t, level, lo);
    TreeTop(mem, t, level, lo, base);
  }

  lemma TopIsTable(mem: Memory, t: nat, level: nat, lo: nat)
    ensures t in Tables(mem, t, level, lo)
  {
  }

  lemma TreeTop(mem: Memory, t: nat, level: nat, lo: nat, base: set<nat>)
    requires Tree(mem, t, level, lo, base)
    ensures 1 <= level && t < |mem| && t !in Own(mem, t, level, lo)
  {
  }
}
