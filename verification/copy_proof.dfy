/** What CopyPageMaps copies, and the steps of the proof. */
module CopyProof {
  import opened PageTable
  import opened PageMapping

  /** A tree whose tables and pages all lie in base; such an image is only read. */
  ghost predicate Image(mem: Memory, t: nat, level: nat, lo: nat, base: set<nat>)
    decreases level
  {
    && t < |mem| && t in base
    && forall i: Index :: lo <= i && mem[t][i].present ==>
         && mem[t][i].user && mem[t][i].addr < |mem| && mem[t][i].addr in base
         && (level > 1 ==> mem[t][i].writable && Image(mem, mem[t][i].addr, level - 1, 0, base))
  }

  /** The first present entry of a table from lo on, or ENTRIES. */
  ghost function FirstPresent(table: Frame, lo: nat): (i: nat)
    ensures i >= lo || i == ENTRIES
    ensures lo <= i < ENTRIES ==> table[i].present
    ensures forall j: Index :: lo <= j < i ==> !table[j].present
    decreases ENTRIES - lo
  {
    if lo >= ENTRIES then ENTRIES
    else if table[lo].present then lo
    else FirstPresent(table, lo + 1)
  }

  lemma FirstPresentUnique(table: Frame, lo: nat, i: Index)
    requires lo <= i && table[i].present && forall j: Index :: lo <= j < i ==> !table[j].present
    ensures FirstPresent(table, lo) == i
    decreases ENTRIES - lo
  {
  }

  /** The page of b is reached by taking the first present entry at every level above 1. */
  ghost predicate OnFirstPath(mem: Memory, t: nat, level: nat, lo: nat, b: LinearAddress)
    decreases level
  {
    t < |mem| && (level > 1 ==>
      && Part(b, level) == FirstPresent(mem[t], lo)
      && OnFirstPath(mem, mem[t][Part(b, level)].addr, level - 1, 0, b))
  }

  /** Every level above 1 has a present entry along the first path. */
  ghost predicate CanCopy(mem: Memory, t: nat, level: nat, lo: nat)
    decreases level
  {
    t < |mem| && (level > 1 ==>
      var i := FirstPresent(mem[t], lo);
      lo <= i < ENTRIES && CanCopy(mem, mem[t][i].addr, level - 1, 0))
  }

  /** dest translates the pages on src's first path like src, read-only, and no others. */
  ghost predicate Copied(mem: Memory, mem': Memory, dest: nat, src: nat, level: nat, lo: nat) {
    forall b: LinearAddress :: lo <= Part(b, level) ==>
      Walk(mem', dest, level, b) ==
        if OnFirstPath(mem, src, level, lo, b) then Walk(mem, src, level, b).(writable := false) else ZERO
  }

  lemma {:induction false} ImageFrame(mem: Memory, mem': Memory, t: nat, level: nat, lo: nat, base: set<nat>)
    requires Image(mem, t, level, lo, base) && |mem'| == |mem|
    requires forall f :: f in base && f < |mem| ==> mem'[f] == mem[f]
    ensures Image(mem', t, level, lo, base)
    ensures SameWalks(mem, mem', t, level, lo)
    ensures CanCopy(mem, t, level, lo) ==> CanCopy(mem', t, level, lo)
    ensures SamePaths(mem, mem', t, level, lo)
    decreases level
  {
    forall i: Index | lo <= i && mem[t][i].present && level > 1
      ensures Image(mem', mem[t][i].addr, level - 1, 0, base)
      ensures SameWalks(mem, mem', mem[t][i].addr, level - 1, 0)
      ensures CanCopy(mem, mem[t][i].addr, level - 1, 0) ==> CanCopy(mem', mem[t][i].addr, level - 1, 0)
      ensures SamePaths(mem, mem', mem[t][i].addr, level - 1, 0)
    {
      ImageFrame(mem, mem', mem[t][i].addr, level - 1, 0, base);
    }
    forall b: LinearAddress
      ensures OnFirstPath(mem', t, level, lo, b) == OnFirstPath(mem, t, level, lo, b)
    {
      if level > 1 && Part(b, level) == FirstPresent(mem[t], lo) {
        assert SamePaths(mem, mem', mem[t][Part(b, level)].addr, level - 1, 0);
      }
    }
  }

  ghost predicate SamePaths(mem: Memory, mem': Memory, t: nat, level: nat, lo: nat) {
    forall b: LinearAddress :: OnFirstPath(mem', t, level, lo, b) == OnFirstPath(mem, t, level, lo, b)
  }

  /** The part of the result that holds even when allocation fails half way. */
  ghost predicate CopyGrows(m0: Memory, u0: set<nat>, m1: Memory, u1: set<nat>, dest: nat, level: nat, lo: nat,
                            base: set<nat>) {
    && Grows(m0, u0, m1, u1, dest, level, lo, base)
    && Own(m1, dest, level, lo) == u1 - u0
  }

  ghost predicate EmptyFrom(mem: Memory, t: nat, lo: nat) {
    t < |mem| && forall i: Index :: lo <= i ==> !mem[t][i].present
  }

  lemma EmptyOwns(mem: Memory, t: nat, level: nat, lo: nat)
    requires EmptyFrom(mem, t, lo)
    ensures Own(mem, t, level, lo) == {}
  {
  }

  lemma CopyNothing(mem: Memory, used: set<nat>, dest: nat, level: nat, lo: nat, base: set<nat>)
    requires Space(mem, used, dest, level, lo, base) && EmptyFrom(mem, dest, lo)
    ensures CopyGrows(mem, used, mem, used, dest, level, lo, base)
  {
    EmptyOwns(mem, dest, level, lo);
    GrowsRefl(mem, used, dest, level, lo, base);
  }

  /** The leaf table is copied entry by entry, read-only. */
  lemma LeavesCopied(m0: Memory, used: set<nat>, m1: Memory, dest: nat, src: nat, lo: nat, base: set<nat>)
    requires Space(m0, used, dest, 1, lo, base) && EmptyFrom(m0, dest, lo)
    requires Image(m0, src, 1, lo, base)
    requires |m1| == |m0| && forall f :: 0 <= f < |m0| && f != dest ==> m1[f] == m0[f]
    requires forall i: Index ::
      m1[dest][i] == if lo <= i && m0[src][i].present then m0[src][i].(writable := false) else m0[dest][i]
    ensures CopyGrows(m0, used, m1, used, dest, 1, lo, base)
    ensures Copied(m0, m1, dest, src, 1, lo)
  {
    EmptyOwns(m0, dest, 1, lo);
    forall i: Index | lo <= i ensures Slot(m1, m1[dest][i], 1) == {} && GoodSlot(m1, m1[dest][i], 1, base) {
      assert m1[dest][i].present ==> m1[dest][i] == m0[src][i].(writable := false);
    }
    assert Own(m1, dest, 1, lo) == {};
    assert NewBase(base, used, used, {}) == base;
  }

  /** A fresh table goes into the slot of dest that the first present entry of src names. */
  lemma CopyLink(m0: Memory, u0: set<nat>, m1: Memory, dest: nat, src: nat, level: nat, lo: nat, base: set<nat>,
                 i: Index, f: nat, e: Entry)
    requires Space(m0, u0, dest, level, lo, base) && EmptyFrom(m0, dest, lo) && level > 1 && lo <= i
    requires Image(m0, src, level, lo, base) && m0[src][i].present
    requires f !in u0 && f < |m0| && e == m0[src][i].(addr := f)
    requires m1 == m0[f := ZeroFrame()][dest := m0[dest][i := e]]
    ensures CopyGrows(m0, u0, m1, u0 + {f}, dest, level, lo, base)
    ensures OutsideSame(m0, m1, dest, level, lo, i)
    ensures m1[dest][i] == e && NewBase(base, u0, u0 + {f}, Own(m1, dest, level, lo)) == base
    ensures Space(m1, u0 + {f}, f, level - 1, 0, base) && EmptyFrom(m1, f, 0)
    ensures forall g :: g in base && g < |m0| ==> m1[g] == m0[g]
  {
    EmptyOwns(m0, dest, level, lo);
    LinkGrows(m0, u0, m1, dest, level, lo, base, i, f, e);
    assert NewBase(base, u0, u0 + {f}, Own(m1, dest, level, lo)) == base;
    ChildSpace(m1, u0 + {f}, dest, level, lo, base, i);
  }

  /** What is copied below a slot leaves the table above as it is. */
  lemma CopyKeepsTop(m1: Memory, u1: set<nat>, m2: Memory, u2: set<nat>, dest: nat, level: nat, lo: nat, base: set<nat>,
                     i: Index, f: nat)
    requires Space(m1, u1, dest, level, lo, base) && level > 1 && lo <= i && m1[dest][i].present
    requires m1[dest][i].addr == f
    requires CopyGrows(m1, u1, m2, u2, f, level - 1, 0, base)
    ensures |m2| == |m1| && m2[dest] == m1[dest]
  {
    ChildSpace(m1, u1, dest, level, lo, base, i);
  }

  /** The copy of the table behind that slot completes the copy of the table above. */
  lemma CopyDescend(m0: Memory, u0: set<nat>, m1: Memory, u1: set<nat>, m2: Memory, u2: set<nat>,
                    dest: nat, src: nat, level: nat, lo: nat, base: set<nat>, i: Index, f: nat)
    requires Space(m0, u0, dest, level, lo, base) && EmptyFrom(m0, dest, lo) && level > 1 && lo <= i
    requires Image(m0, src, level, lo, base) && m0[src][i].present && FirstPresent(m0[src], lo) == i
    requires CopyGrows(m0, u0, m1, u1, dest, level, lo, base) && u1 == u0 + {f} && f !in u0
    requires m1[dest][i].present && m1[dest][i].addr == f
    requires OutsideSame(m0, m1, dest, level, lo, i)
    requires NewBase(base, u0, u1, Own(m1, dest, level, lo)) == base
    requires CopyGrows(m1, u1, m2, u2, f, level - 1, 0, base) && EmptyFrom(m1, f, 0)
    ensures CopyGrows(m0, u0, m2, u2, dest, level, lo, base)
    ensures Copied(m1, m2, f, m0[src][i].addr, level - 1, 0) ==> Copied(m0, m2, dest, src, level, lo)
  {
    EmptyOwns(m1, f, level - 1, 0);
    Descend(m1, u1, m2, u2, dest, level, lo, base, i);
    GrowsTrans(m0, u0, m1, u1, m2, u2, dest, level, lo, base);
    if Copied(m1, m2, f, m0[src][i].addr, level - 1, 0) {
      ImageFrame(m0, m1, m0[src][i].addr, level - 1, 0, base);
      CopiedAbove(m0, m1, m2, dest, src, level, lo, base, i, f);
    }
  }

  lemma CopiedAbove(m0: Memory, m1: Memory, m2: Memory, dest: nat, src: nat, level: nat, lo: nat, base: set<nat>,
                    i: Index, f: nat)
    requires level > 1 && lo <= i && src < |m0| && dest < |m0| == |m1| == |m2| && EmptyFrom(m0, dest, lo)
    requires m0[src][i].present && FirstPresent(m0[src], lo) == i
    requires m2[dest][i].present && m2[dest][i].addr == f
    requires OutsideSame(m0, m1, dest, level, lo, i) && OutsideSame(m1, m2, dest, level, lo, i)
    requires SameWalks(m0, m1, m0[src][i].addr, level - 1, 0) && SamePaths(m0, m1, m0[src][i].addr, level - 1, 0)
    requires Copied(m1, m2, f, m0[src][i].addr, level - 1, 0)
    ensures Copied(m0, m2, dest, src, level, lo)
  {
    forall b: LinearAddress | lo <= Part(b, level)
      ensures Walk(m2, dest, level, b) ==
        if OnFirstPath(m0, src, level, lo, b) then Walk(m0, src, level, b).(writable := false) else ZERO
    {
      if Part(b, level) == i {
        assert 0 <= Part(b, level - 1);
      } else {
        assert SamePageThrough(m0, m1, dest, level, b);
        assert SamePageThrough(m1, m2, dest, level, b);
      }
    }
  }

  // ----- The tables of the copy -----

  /** dest has the tables of src's first path, and no others. */
  ghost predicate PathTables(mem: Memory, mem': Memory, dest: nat, src: nat, level: nat, lo: nat)
    decreases level
  {
    level > 1 ==>
      && dest < |mem'| && src < |mem|
      && forall j: Index :: lo <= j ==>
           && (mem'[dest][j].present <==> j == FirstPresent(mem[src], lo))
           && (mem'[dest][j].present ==> PathTables(mem, mem', mem'[dest][j].addr, mem[src][j].addr, level - 1, 0))
  }

  lemma {:induction false} PathTablesFrame(m0: Memory, m1: Memory, mem': Memory, dest: nat, src: nat, level: nat,
                                           lo: nat,
                                           base: set<nat>)
    requires Image(m0, src, level, lo, base) && |m1| == |m0|
    requires forall f :: f in base && f < |m0| ==> m1[f] == m0[f]
    requires PathTables(m1, mem', dest, src, level, lo)
    ensures PathTables(m0, mem', dest, src, level, lo)
    decreases level
  {
    if level > 1 {
      forall j: Index | lo <= j && mem'[dest][j].present
        ensures PathTables(m0, mem', mem'[dest][j].addr, m0[src][j].addr, level - 1, 0)
      {
        PathTablesFrame(m0, m1, mem', mem'[dest][j].addr, m0[src][j].addr, level - 1, 0, base);
      }
    }
  }

  lemma TablesDescend(m0: Memory, m1: Memory, m2: Memory, dest: nat, src: nat, level: nat, lo: nat, base: set<nat>,
                      i: Index, f: nat)
    requires level > 1 && lo <= i && Image(m0, src, level, lo, base) && EmptyFrom(m0, dest, lo)
    requires dest < |m0| == |m1| == |m2| && FirstPresent(m0[src], lo) == i
    requires m1[dest][i].present && m1[dest][i].addr == f && m2[dest] == m1[dest]
    requires forall j: Index :: j != i ==> m1[dest][j] == m0[dest][j]
    requires forall g :: g in base && g < |m0| ==> m1[g] == m0[g]
    requires PathTables(m1, m2, f, m0[src][i].addr, level - 1, 0)
    ensures PathTables(m0, m2, dest, src, level, lo)
  {
    PathTablesFrame(m0, m1, m2, f, m0[src][i].addr, level - 1, 0, base);
  }

  /** The new table is linked, and the table to be copied into it is whole. */
  ghost predicate LinkedCopy(m0: Memory, u0: set<nat>, m1: Memory, u1: set<nat>, dest: nat, src: nat, level: nat,
                             lo: nat,
                             base: set<nat>, i: Index, f: nat)
  {
    && Space(m0, u0, dest, level, lo, base) && EmptyFrom(m0, dest, lo) && level > 1 && lo <= i
    && Image(m0, src, level, lo, base) && m0[src][i].present && FirstPresent(m0[src], lo) == i
    && f !in u0 && f < |m0| && u1 == u0 + {f}
    && m1 == m0[f := ZeroFrame()][dest := m0[dest][i := m0[src][i].(addr := f)]]
  }

  /** Ready for the recursive call. */
  lemma CopyPrepared(m0: Memory, u0: set<nat>, m1: Memory, u1: set<nat>, dest: nat, src: nat, level: nat, lo: nat,
                  base: set<nat>, i: Index, f: nat)
    requires LinkedCopy(m0, u0, m1, u1, dest, src, level, lo, base, i, f) && CanCopy(m0, src, level, lo)
    ensures src < |m1| && m1[src] == m0[src] && |m1| == |m0|
    ensures Space(m1, u1, f, level - 1, 0, base) && EmptyFrom(m1, f, 0)
    ensures Image(m1, m0[src][i].addr, level - 1, 0, base) && CanCopy(m1, m0[src][i].addr, level - 1, 0)
  {
    CopyLink(m0, u0, m1, dest, src, level, lo, base, i, f, m0[src][i].(addr := f));
    ImageFrame(m0, m1, m0[src][i].addr, level - 1, 0, base);
  }

  /** The recursive call, seen from the table above. */
  lemma CopyFinished(m0: Memory, u0: set<nat>, m1: Memory, u1: set<nat>, m2: Memory, u2: set<nat>,
                     dest: nat, src: nat, level: nat, lo: nat, base: set<nat>, i: Index, f: nat)
    requires LinkedCopy(m0, u0, m1, u1, dest, src, level, lo, base, i, f)
    requires CopyGrows(m1, u1, m2, u2, f, level - 1, 0, base) && EmptyFrom(m1, f, 0)
    ensures CopyGrows(m0, u0, m2, u2, dest, level, lo, base)
    ensures Copied(m1, m2, f, m0[src][i].addr, level - 1, 0) ==> Copied(m0, m2, dest, src, level, lo)
    ensures PathTables(m1, m2, f, m0[src][i].addr, level - 1, 0) ==> PathTables(m0, m2, dest, src, level, lo)
  {
    hide CopyGrows, Copied, PathTables, Image, Space, EmptyFrom, FirstPresent;
    InMemory(m0, u0, dest, src, level, lo, base);
    CopyLink(m0, u0, m1, dest, src, level, lo, base, i, f, m0[src][i].(addr := f));
    CopyDescend(m0, u0, m1, u1, m2, u2, dest, src, level, lo, base, i, f);
    LinkedSpace(m0, u0, m1, u1, dest, level, lo, base);
    CopyKeepsTop(m1, u1, m2, u2, dest, level, lo, base, i, f);
    if PathTables(m1, m2, f, m0[src][i].addr, level - 1, 0) {
      TablesDescend(m0, m1, m2, dest, src, level, lo, base, i, f);
    }
  }

  lemma InMemory(mem: Memory, used: set<nat>, dest: nat, src: nat, level: nat, lo: nat, base: set<nat>)
    requires Space(mem, used, dest, level, lo, base) && Image(mem, src, level, lo, base)
    ensures dest < |mem| && src < |mem|
  {
  }

  lemma CopyDistinct(mem: Memory, used: set<nat>, dest: nat, src: nat, level: nat, lo: nat, base: set<nat>)
    requires Space(mem, used, dest, level, lo, base) && Image(mem, src, level, lo, base)
    ensures dest in used && src in used && dest != src
  {
  }

  lemma LinkedSpace(m0: Memory, u0: set<nat>, m1: Memory, u1: set<nat>, dest: nat, level: nat, lo: nat, base: set<nat>)
    requires CopyGrows(m0, u0, m1, u1, dest, level, lo, base)
    ensures Space(m1, u1, dest, level, lo, base)
  {
    assert NewBase(base, u0, u1, Own(m1, dest, level, lo)) == base;
  }

  // ----- What the early return loses -----

  /**
   The copy translates every page of the image exactly when all pages of the image lie behind the
   first present entries of the upper levels.
   */
  lemma CopyComplete(mem: Memory, mem': Memory, dest: nat, src: nat, level: nat, lo: nat)
    requires Copied(mem, mem', dest, src, level, lo)
    ensures (forall b: LinearAddress :: lo <= Part(b, level) && Walk(mem, src, level, b).present ==>
               Walk(mem', dest, level, b) == Walk(mem, src, level, b).(writable := false))
       <==> (forall b: LinearAddress :: lo <= Part(b, level) && Walk(mem, src, level, b).present ==>
               OnFirstPath(mem, src, level, lo, b))
  {
    forall b: LinearAddress | lo <= Part(b, level) && Walk(mem, src, level, b).present
      ensures Walk(mem', dest, level, b) == Walk(mem, src, level, b).(writable := false)
         <==> OnFirstPath(mem, src, level, lo, b)
    {
    }
  }

  /**
   An image with two present entries in a table of level 2: the table in frame 0 names the leaf tables 1 and 2,
   each with one page.  The page behind the second entry is not copied, wherever the copy goes.
   */
  lemma SecondEntryIsLost(mem: Memory, mem': Memory, dest: nat)
    requires |mem| == 5
    requires mem[0] == ZeroFrame()[0 := Entry(true, true, true, 0, 1)][1 := Entry(true, true, true, 0, 2)]
    requires mem[1] == ZeroFrame()[0 := Entry(true, false, true, 0, 3)]
    requires mem[2] == ZeroFrame()[0 := Entry(true, false, true, 0, 4)]
    requires Copied(mem, mem', dest, 0, 2, 0)
    ensures var a, b := LinearAddress(0, 0, 0, 0), LinearAddress(0, 0, 1, 0);
            && Walk(mem, 0, 2, a).addr == 3 && Walk(mem', dest, 2, a) == Walk(mem, 0, 2, a)
            && Walk(mem, 0, 2, b).present && Walk(mem, 0, 2, b).addr == 4 && Walk(mem', dest, 2, b) == ZERO
  {
    var a, b := LinearAddress(0, 0, 0, 0), LinearAddress(0, 0, 1, 0);
    assert mem[0][0] == Entry(true, true, true, 0, 1) && mem[0][1] == Entry(true, true, true, 0, 2);
    assert mem[1][0] == Entry(true, false, true, 0, 3) && mem[2][0] == Entry(true, false, true, 0, 4);
    assert Walk(mem, 0, 2, a) == Walk(mem, 1, 1, a) == mem[1][0];
    assert Walk(mem, 0, 2, b) == Walk(mem, 2, 1, b) == mem[2][0];
    FirstPresentUnique(mem[0], 0, 0);
    assert OnFirstPath(mem, 1, 1, 0, a) && OnFirstPath(mem, 0, 2, 0, a) && !OnFirstPath(mem, 0, 2, 0, b);
    assert 0 <= Part(a, 2) && 0 <= Part(b, 2);
  }

  /** One present entry at most in every table above level 1. */
  ghost predicate SinglePath(mem: Memory, t: nat, level: nat, lo: nat)
    decreases level
  {
    level > 1 && t < |mem| ==>
      && (forall i: Index, j: Index :: lo <= i && lo <= j && mem[t][i].present && mem[t][j].present ==> i == j)
      && (forall i: Index :: lo <= i && mem[t][i].present ==> SinglePath(mem, mem[t][i].addr, level - 1, 0))
  }

  lemma {:induction false} SinglePathIsFirst(mem: Memory, t: nat, level: nat, lo: nat, b: LinearAddress)
    requires SinglePath(mem, t, level, lo) && lo <= Part(b, level)
    requires Walk(mem, t, level, b).present
    ensures OnFirstPath(mem, t, level, lo, b)
    decreases level
  {
    if level > 1 {
      FirstPresentUnique(mem[t], lo, Part(b, level));
      SinglePathIsFirst(mem, mem[t][Part(b, level)].addr, level - 1, 0, b);
    }
  }
}
