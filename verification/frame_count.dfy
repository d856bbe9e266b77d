/**
 How many frames mapping takes: one for every page that is absent and one for every table that is missing on
 the way to the pages.
 */
module FrameCount {
  import opened PageTable
  import opened PageMapping
  import opened SetupProof
  import opened Permission

  /** The address of the slot after a's. */
  function NextAddress(a: LinearAddress, level: nat): (next: LinearAddress)
    requires 1 <= level <= 4 && Part(a, level) < ENTRIES - 1
    ensures Part(next, level) == Part(a, level) + 1
    ensures forall l :: 1 <= l < level ==> Part(next, l) == 0
    ensures forall l :: level < l <= 4 ==> Part(next, l) == Part(a, l)
  {
    match level
    case 1 => a.(page := a.page + 1)
    case 2 => a.(dir := a.dir + 1, page := 0)
    case 3 => a.(pdp := a.pdp + 1, dir := 0, page := 0)
    case 4 => LinearAddress(a.pml4 + 1, 0, 0, 0)
  }

  /** An entry of a table; a table outside memory stands for one that is not there yet. */
  function EntryAt(mem: Memory, t: nat, i: Index): Entry {
    if t < |mem| then mem[t][i] else ZERO
  }

  function Child(mem: Memory, e: Entry): nat {
    if e.present then e.addr else |mem|
  }

  /** The frames that mapping num pages from a on takes, as far as they fit under table t. */
  function Need(mem: Memory, t: nat, level: nat, a: LinearAddress, num: nat): nat
    requires 1 <= level <= 4
    decreases level, ENTRIES - Part(a, level), 1
  {
    if num == 0 then 0
    else
      SlotNeed(mem, EntryAt(mem, t, Part(a, level)), level, a, num) +
      if Part(a, level) == ENTRIES - 1 then 0
      else Need(mem, t, level, NextAddress(a, level), Step(a, level, num))
  }

  /** The share of one slot: its own frame, and what is needed below. */
  function SlotNeed(mem: Memory, e: Entry, level: nat, a: LinearAddress, num: nat): nat
    requires 1 <= level <= 4 && num > 0
    decreases level, ENTRIES - Part(a, level), 0
  {
    (if e.present then 0 else 1) +
    if level > 1 then Need(mem, Child(mem, e), level - 1, a, num) else 0
  }

  // ----- What the count depends on -----

  /** A table without present entries counts like one that is not there. */
  ghost predicate Bare(mem: Memory, t: nat) {
    t < |mem| ==> forall i: Index :: !mem[t][i].present
  }

  lemma {:induction false} NeedBare(mem: Memory, t: nat, mem': Memory, t': nat, level: nat, a: LinearAddress, num: nat)
    requires 1 <= level <= 4 && Bare(mem, t) && Bare(mem', t')
    ensures Need(mem, t, level, a, num) == Need(mem', t', level, a, num)
    decreases level, ENTRIES - Part(a, level)
  {
    if num > 0 {
      if level > 1 {
        NeedBare(mem, |mem|, mem', |mem'|, level - 1, a, num);
      }
      if Part(a, level) < ENTRIES - 1 {
        NeedBare(mem, t, mem', t', level, NextAddress(a, level), Step(a, level, num));
      }
    }
  }

  /** Slots from a's on, and the tables below them, are the same. */
  ghost predicate SlotsKept(mem: Memory, mem': Memory, t: nat, level: nat, from: nat) {
    && t < |mem| == |mem'|
    && forall j: Index :: from <= j ==> mem'[t][j] == mem[t][j] && TablesKept(mem, mem', mem[t][j], level)
  }

  ghost predicate TablesKept(mem: Memory, mem': Memory, e: Entry, level: nat) {
    forall f :: f in SlotTables(mem, e, level) ==> f < |mem| && f < |mem'| && mem'[f] == mem[f]
  }

  lemma BelowKept(mem: Memory, mem': Memory, e: Entry, level: nat)
    requires |mem| == |mem'| && TablesKept(mem, mem', e, level) && e.present && level > 1
    ensures SlotsKept(mem, mem', e.addr, level - 1, 0)
  {
    var f := e.addr;
    assert f in SlotTables(mem, e, level);
    forall j: Index ensures TablesKept(mem, mem', mem[f][j], level - 1) {
      SlotInTables(mem, f, level - 1, 0, j);
    }
  }

  lemma {:induction false} NeedKept(mem: Memory, mem': Memory, t: nat, level: nat, a: LinearAddress, num: nat)
    requires 1 <= level <= 4 && SlotsKept(mem, mem', t, level, Part(a, level))
    ensures Need(mem', t, level, a, num) == Need(mem, t, level, a, num)
    decreases level, ENTRIES - Part(a, level)
  {
    if num > 0 {
      var e := mem[t][Part(a, level)];
      if level > 1 {
        if e.present {
          BelowKept(mem, mem', e, level);
          NeedKept(mem, mem', e.addr, level - 1, a, num);
        } else {
          NeedBare(mem, |mem|, mem', |mem'|, level - 1, a, num);
        }
      }
      if Part(a, level) < ENTRIES - 1 {
        NeedKept(mem, mem', t, level, NextAddress(a, level), Step(a, level, num));
      }
    }
  }

  /** The permissions of pages do not matter. */
  lemma {:induction false} NeedAlike(mem: Memory, mem': Memory, t: nat, level: nat, a: LinearAddress, num: nat)
    requires 1 <= level <= 4 && Alike(mem, mem')
    ensures Need(mem', t, level, a, num) == Need(mem, t, level, a, num)
    decreases level, ENTRIES - Part(a, level)
  {
    if num > 0 {
      var i := Part(a, level);
      if t < |mem| {
        assert AlikeEntry(mem[t][i], mem'[t][i]);
      }
      if level > 1 {
        NeedAlike(mem, mem', Child(mem, EntryAt(mem, t, i)), level - 1, a, num);
      }
      if i < ENTRIES - 1 {
        NeedAlike(mem, mem', t, level, NextAddress(a, level), Step(a, level, num));
      }
    }
  }

  lemma NeedSplit(mem: Memory, t: nat, level: nat, a: LinearAddress, num: nat)
    requires 1 <= level <= 4 && t < |mem| && num > 0
    ensures Need(mem, t, level, a, num) ==
            SlotNeed(mem, mem[t][Part(a, level)], level, a, num) +
            if Part(a, level) == ENTRIES - 1 then 0
            else Need(mem, t, level, NextAddress(a, level), Step(a, level, num))
  {
  }

  lemma SlotNeedIs(mem: Memory, e: Entry, level: nat, a: LinearAddress, num: nat)
    requires 1 <= level <= 4 && num > 0
    ensures SlotNeed(mem, e, level, a, num) >= if e.present then 0 else 1
    ensures level == 1 ==> SlotNeed(mem, e, level, a, num) == if e.present then 0 else 1
  {
  }

  lemma NeedNothing(mem: Memory, t: nat, level: nat, a: LinearAddress)
    requires 1 <= level <= 4
    ensures Need(mem, t, level, a, 0) == 0
  {
  }

  /** Serving one slot changes nothing about what the slots behind it need. */
  lemma NextNeed(s1: Memory, used: set<nat>, s2: Memory, t: nat, level: nat, lo: nat, base: set<nat>, i: Index,
                 next: LinearAddress, num: nat)
    requires Space(s1, used, t, level, lo, base) && 1 <= level <= 4 && lo <= i && Part(next, level) == i + 1
    requires SlotConfined(s1, s1, used, s2, t, level, i)
    ensures Need(s2, t, level, next, num) == Need(s1, t, level, next, num)
  {
    forall j: Index | i + 1 <= j ensures TablesKept(s1, s2, s1[t][j], level) {
      OtherSlot(s1, s1, used, s2, t, level, lo, base, i, j);
    }
    NeedKept(s1, s2, t, level, next, num);
  }

  /** What is needed below a slot does not depend on its being linked. */
  lemma LinkedNeed(s1: Memory, used: set<nat>, s2: Memory, used': set<nat>, t: nat, level: nat, i: Index, f: nat,
                   a: LinearAddress, num: nat)
    requires 1 < level <= 4 && num > 0
    requires Linked(s1, used, s2, used', t, i, f, true) && (s1[t][i].present ==> s2 == s1)
    ensures SlotNeed(s1, s1[t][i], level, a, num) ==
            (if s1[t][i].present then 0 else 1) + Need(s2, f, level - 1, a, num)
  {
    if !s1[t][i].present {
      NeedBare(s1, |s1|, s2, f, level - 1, a, num);
    }
  }

  // ----- A run inside one leaf table -----

  /** The tables missing on the way to a page. */
  function MissingTables(mem: Memory, t: nat, level: nat, a: LinearAddress): nat
    decreases level
  {
    if level <= 1 then 0
    else
      var e := EntryAt(mem, t, Part(a, level));
      if e.present then MissingTables(mem, e.addr, level - 1, a) else level - 1
  }

  /** How many of n pages from a on are absent. */
  function AbsentPages(mem: Memory, t: nat, level: nat, a: LinearAddress, n: nat): nat
    requires a.page + n <= ENTRIES
  {
    if n == 0 then 0
    else
      AbsentPages(mem, t, level, a, n - 1) +
      if Walk(mem, t, level, a.(page := a.page + n - 1)).present then 0 else 1
  }

  lemma {:induction false} AbsentPagesAfter(mem: Memory, t: nat, level: nat, a: LinearAddress, n: nat)
    requires 0 < n && a.page + n <= ENTRIES
    ensures AbsentPages(mem, t, level, a, n) ==
            (if Walk(mem, t, level, a).present then 0 else 1) +
            if n == 1 then 0 else AbsentPages(mem, t, level, a.(page := a.page + 1), n - 1)
  {
    assert a.(page := a.page) == a;
    if n > 1 {
      AbsentPagesAfter(mem, t, level, a, n - 1);
      assert a.(page := a.page + 1).(page := a.page + 1 + (n - 1) - 1) == a.(page := a.page + n - 1);
    }
  }

  /** Pages of the same leaf table below t, seen from the table below. */
  lemma {:induction false} AbsentBelow(mem: Memory, t: nat, level: nat, a: LinearAddress, n: nat)
    requires 1 < level <= 4 && a.page + n <= ENTRIES
    ensures AbsentPages(mem, t, level, a, n)
         == AbsentPages(mem, Child(mem, EntryAt(mem, t, Part(a, level))), level - 1, a, n)
  {
    if n > 0 {
      AbsentBelow(mem, t, level, a, n - 1);
      assert Part(a.(page := a.page + n - 1), level) == Part(a, level);
    }
  }

  /** Mapping inside one leaf table takes the tables missing on the way and the absent pages. */
  lemma {:induction false} NeedInOneTable(mem: Memory, t: nat, level: nat, a: LinearAddress, n: nat)
    requires 1 <= level <= 4 && 0 < n && a.page + n <= ENTRIES
    ensures Need(mem, t, level, a, n) == MissingTables(mem, t, level, a) + AbsentPages(mem, t, level, a, n)
    decreases level, n
  {
    if level == 1 {
      AbsentPagesAfter(mem, t, 1, a, n);
      if n > 1 {
        assert NextAddress(a, 1) == a.(page := a.page + 1);
        NeedInOneTable(mem, t, 1, a.(page := a.page + 1), n - 1);
      }
    } else {
      var e := EntryAt(mem, t, Part(a, level));
      FitsBelow(a, level - 1, n);
      NeedInOneTable(mem, Child(mem, e), level - 1, a, n);
      AbsentBelow(mem, t, level, a, n);
      if !e.present && level > 2 {
        assert MissingTables(mem, |mem|, level - 1, a) == level - 2;
      }
    }
  }

  lemma {:induction false} FitsBelow(a: LinearAddress, level: nat, n: nat)
    requires 1 <= level && a.page + n <= ENTRIES
    ensures Low(a, level) + n <= Span(level)
  {
    if level == 1 {
      SlotStartTimes(a.page, 1);
    } else {
      FitsBelow(a, level - 1, n);
      SlotEnd(Part(a, level), level);
    }
  }

  /** Where a page is present no table is missing, and neither for the other pages of its leaf table. */
  lemma {:induction false} PresentNoneMissing(mem: Memory, t: nat, level: nat, a: LinearAddress, b: LinearAddress)
    requires 1 <= level <= 4 && Walk(mem, t, level, a).present
    requires forall l :: 1 < l <= level ==> Part(b, l) == Part(a, l)
    ensures MissingTables(mem, t, level, b) == 0
    decreases level
  {
    if level > 1 {
      PresentNoneMissing(mem, mem[t][Part(a, level)].addr, level - 1, a, b);
    }
  }

  lemma {:induction false} FewMissing(mem: Memory, t: nat, level: nat, a: LinearAddress)
    requires 1 <= level
    ensures MissingTables(mem, t, level, a) <= level - 1
    decreases level
  {
    if level > 1 && EntryAt(mem, t, Part(a, level)).present {
      FewMissing(mem, EntryAt(mem, t, Part(a, level)).addr, level - 1, a);
    }
  }

  /** A single page takes at most a frame for every level. */
  lemma OnePageNeed(mem: Memory, t: nat, a: LinearAddress)
    ensures Need(mem, t, 4, a, 1) ==
            if Walk(mem, t, 4, a).present then 0 else 1 + MissingTables(mem, t, 4, a)
    ensures Need(mem, t, 4, a, 1) <= 4
  {
    NeedInOneTable(mem, t, 4, a, 1);
    FewMissing(mem, t, 4, a);
    assert a.(page := a.page) == a;
    assert AbsentPages(mem, t, 4, a, 1) == AbsentPages(mem, t, 4, a, 0) + if Walk(mem, t, 4, a).present then 0 else 1;
    if Walk(mem, t, 4, a).present {
      PresentNoneMissing(mem, t, 4, a, a);
    }
  }
}
