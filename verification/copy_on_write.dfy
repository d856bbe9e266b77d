/** Giving one page of a tree a private frame, and storing into frames that a tree owns. */
module CopyOnWrite {
  import opened PageTable
  import opened PageMapping

  /** The two addresses select the same page under a table of the given level. */
  predicate SamePage(a: LinearAddress, b: LinearAddress, level: nat) {
    level == 0 || (Part(a, level) == Part(b, level) && SamePage(a, b, level - 1))
  }

  /** The page of a, and no other, is now backed by frame p and writable. */
  ghost predicate Repointed(mem: Memory, mem': Memory, t: nat, level: nat, lo: nat, a: LinearAddress, p: nat) {
    forall b: LinearAddress :: lo <= Part(b, level) ==>
      if SamePage(a, b, level) then Walk(mem', t, level, b) == Walk(mem, t, level, b).(addr := p, writable := true)
      else SamePageThrough(mem, mem', t, level, b)
  }

  ghost predicate OnlyTreeChanged(mem: Memory, mem': Memory, t: nat, level: nat, lo: nat) {
    |mem'| == |mem| && forall f :: 0 <= f < |mem| && f != t && f !in Own(mem, t, level, lo) ==> mem'[f] == mem[f]
  }

  /** The page of a may be given the private frame p. */
  ghost predicate Replaceable(mem: Memory, used: set<nat>, t: nat, level: nat, lo: nat, base: set<nat>,
                              a: LinearAddress, p: nat)
  {
    && p in used && p < |mem|
    && Space(mem, used - {p}, t, level, lo, base)
    && 1 <= level && lo <= Part(a, level)
    && Walk(mem, t, level, a).present && !Walk(mem, t, level, a).writable
  }

  ghost predicate Replaced(mem: Memory, used: set<nat>, mem': Memory, t: nat, level: nat, lo: nat, base: set<nat>,
                           a: LinearAddress, p: nat)
  {
    && Grows(mem, used - {p}, mem', used, t, level, lo, base)
    && Own(mem', t, level, lo) == Own(mem, t, level, lo) + {p}
    && OnlyTreeChanged(mem, mem', t, level, lo)
    && Repointed(mem, mem', t, level, lo, a, p)
  }

  lemma ReplaceLeaf(mem: Memory, used: set<nat>, mem': Memory, t: nat, lo: nat, base: set<nat>, a: LinearAddress,
                    p: nat)
    requires Replaceable(mem, used, t, 1, lo, base, a, p)
    requires mem' == mem[t := mem[t][Part(a, 1) := mem[t][Part(a, 1)].(addr := p, writable := true)]]
    ensures Replaced(mem, used, mem', t, 1, lo, base, a, p)
  {
    var i := Part(a, 1);
    assert GoodSlot(mem, mem[t][i], 1, base);
    assert Walk(mem, t, 1, a) == mem[t][i];
    assert Slot(mem, mem[t][i], 1) == {};
    assert Slot(mem', mem'[t][i], 1) == {p};
    assert GoodSlot(mem', mem'[t][i], 1, NewBase(base, used - {p}, used, {p}));
    assert forall f :: f in used ==> f in used - {p} || f == p;
    ChangeSlot(mem, used - {p}, mem', used, t, 1, lo, base, i);
    forall b: LinearAddress | lo <= Part(b, 1) && !SamePage(a, b, 1)
      ensures SamePageThrough(mem, mem', t, 1, b)
    {
      assert SamePage(a, b, 0);
      assert Part(b, 1) != i;
    }
  }

  lemma ReplaceInChild(mem: Memory, used: set<nat>, t: nat, level: nat, lo: nat, base: set<nat>, a: LinearAddress,
                       p: nat)
    requires Replaceable(mem, used, t, level, lo, base, a, p) && level > 1
    ensures mem[t][Part(a, level)].present
    ensures Replaceable(mem, used, mem[t][Part(a, level)].addr, level - 1, 0, base, a, p)
  {
    ChildSpace(mem, used - {p}, t, level, lo, base, Part(a, level));
  }

  lemma ReplaceDescend(mem: Memory, used: set<nat>, mem': Memory, t: nat, level: nat, lo: nat, base: set<nat>,
                       a: LinearAddress, i: Index, f: nat, p: nat)
    requires Replaceable(mem, used, t, level, lo, base, a, p) && level > 1
    requires i == Part(a, level) && mem[t][i].present && mem[t][i].addr == f
    requires Replaced(mem, used, mem', f, level - 1, 0, base, a, p)
    ensures Replaced(mem, used, mem', t, level, lo, base, a, p)
  {
    ChildSpace(mem, used - {p}, t, level, lo, base, i);
    Descend(mem, used - {p}, mem', used, t, level, lo, base, i);
    forall b: LinearAddress | lo <= Part(b, level)
      ensures if SamePage(a, b, level)
              then Walk(mem', t, level, b) == Walk(mem, t, level, b).(addr := p, writable := true)
              else SamePageThrough(mem, mem', t, level, b)
    {
      if Part(b, level) == i {
        assert 0 <= Part(b, level - 1);
        assert SamePage(a, b, level) == SamePage(a, b, level - 1);
      }
    }
  }

  // ----- Stores into owned page frames -----

  /** A page frame that a tree owns is not one of its tables. */
  lemma {:induction false} LeafNotTable(mem: Memory, t: nat, level: nat, lo: nat, base: set<nat>, a: LinearAddress)
    requires Tree(mem, t, level, lo, base) && lo <= Part(a, level)
    requires Walk(mem, t, level, a).present && Walk(mem, t, level, a).writable
    ensures Walk(mem, t, level, a).addr in Own(mem, t, level, lo)
    ensures Walk(mem, t, level, a).addr !in Tables(mem, t, level, lo)
    decreases level
  {
    var i, f := Part(a, level), Walk(mem, t, level, a).addr;
    WalkReaches(mem, t, level, lo, base, a);
    SlotInOwn(mem, t, level, lo, i);
    forall j: Index | lo <= j ensures f !in SlotTables(mem, mem[t][j], level) {
      assert GoodSlot(mem, mem[t][j], level, base);
      if level > 1 && mem[t][j].present {
        if j == i {
          assert 0 <= Part(a, level - 1);
          LeafNotTable(mem, mem[t][i].addr, level - 1, 0, base, a);
        } else {
          TablesOwned(mem, mem[t][j].addr, level - 1, 0, base);
          assert if i < j then Slot(mem, mem[t][i], level) !! Slot(mem, mem[t][j], level)
                 else Slot(mem, mem[t][j], level) !! Slot(mem, mem[t][i], level);
        }
      }
    }
  }

  /** Different pages of a tree never share a frame that the tree owns. */
  lemma {:induction false} LeavesDiffer(mem: Memory, used: set<nat>, t: nat, level: nat, lo: nat, base: set<nat>,
                                        a: LinearAddress, b: LinearAddress)
    requires Space(mem, used, t, level, lo, base) && lo <= Part(a, level) && lo <= Part(b, level)
    requires !SamePage(a, b, level)
    requires Walk(mem, t, level, a).present && Walk(mem, t, level, a).writable
    requires Walk(mem, t, level, b).present
    ensures Walk(mem, t, level, a).addr != Walk(mem, t, level, b).addr
    decreases level
  {
    var i, j := Part(a, level), Part(b, level);
    WalkReaches(mem, t, level, lo, base, a);
    WalkReaches(mem, t, level, lo, base, b);
    SlotInOwn(mem, t, level, lo, i);
    if i == j {
      if level > 1 {
        ChildSpace(mem, used, t, level, lo, base, i);
        LeavesDiffer(mem, used, mem[t][i].addr, level - 1, 0, base, a, b);
      }
    } else {
      assert if i < j then Slot(mem, mem[t][i], level) !! Slot(mem, mem[t][j], level)
             else Slot(mem, mem[t][j], level) !! Slot(mem, mem[t][i], level);
    }
  }

  /** Storing into an owned page changes no translation, and the contents of that page only. */
  lemma StoreKeepsTree(mem: Memory, used: set<nat>, mem': Memory, t: nat, level: nat, lo: nat, base: set<nat>,
                       a: LinearAddress, page: Frame)
    requires Space(mem, used, t, level, lo, base) && lo <= Part(a, level)
    requires Walk(mem, t, level, a).present && Walk(mem, t, level, a).writable
    requires Walk(mem, t, level, a).addr < |mem| && mem' == mem[Walk(mem, t, level, a).addr := page]
    ensures Space(mem', used, t, level, lo, base)
    ensures Own(mem', t, level, lo) == Own(mem, t, level, lo)
    ensures SameWalks(mem, mem', t, level, lo)
    ensures forall b: LinearAddress :: lo <= Part(b, level) && !SamePage(a, b, level) ==>
      SamePageThrough(mem, mem', t, level, b)
  {
    LeafNotTable(mem, t, level, lo, base, a);
    TablesInMemory(mem, t, level, lo, base);
    TreeFrame(mem, mem', t, level, lo, base);
    forall b: LinearAddress | lo <= Part(b, level) && !SamePage(a, b, level)
      ensures SamePageThrough(mem, mem', t, level, b)
    {
      if Walk(mem, t, level, b).present {
        LeavesDiffer(mem, used, t, level, lo, base, a, b);
        WalkReaches(mem, t, level, lo, base, b);
      }
    }
  }
}
