/**
 What mapping does to the permissions of pages that are already present.  Mapping looks at nothing but which
 frames the entries name, so it runs alike on two memories that differ in permissions only: ownership is
 followed in a shadow whose permissions are in order, while the pages of the real memory are remapped.
 */
module Permission {
  import opened PageTable
  import opened PageMapping
  import opened SetupProof

  /** The two entries name the same frame; absent ones are equal. */
  predicate AlikeEntry(e: Entry, e': Entry) {
    e.(writable := false) == e'.(writable := false) && (e.present || e == e')
  }

  /** The memories differ in writable bits of present entries only. */
  ghost predicate Alike(mem: Memory, mem': Memory) {
    |mem| == |mem'| && forall f, i: Index :: 0 <= f < |mem| ==> AlikeEntry(mem[f][i], mem'[f][i])
  }

  // ----- The effect on pages -----

  /** A present page keeps its frame, and its permission unless it is in range; a page that appears is in range. */
  ghost predicate RemapEffect(mem: Memory, mem': Memory, t: nat, level: nat, b: LinearAddress, inRange: bool,
                              writable: bool) {
    var w, w' := Walk(mem, t, level, b), Walk(mem', t, level, b);
    && (w.present ==> w'.present && w'.addr == w.addr)
    && (w'.present ==> (w.present && w'.writable == w.writable) || (inRange && w'.writable == writable))
  }

  ghost predicate Remapped(mem: Memory, mem': Memory, t: nat, level: nat, lo: nat, from: nat, to: nat, writable: bool) {
    forall b: LinearAddress :: lo <= Part(b, level) ==>
      RemapEffect(mem, mem', t, level, b, InRange(b, level, from, to), writable)
  }

  /** All pages of the range are there, with the permission asked for. */
  ghost predicate Served(mem: Memory, t: nat, level: nat, lo: nat, from: nat, to: nat, writable: bool) {
    forall b: LinearAddress :: lo <= Part(b, level) && InRange(b, level, from, to) ==>
      Walk(mem, t, level, b).present && Walk(mem, t, level, b).writable == writable
  }

  /** Each page that appears has a zeroed frame to itself that was free. */
  ghost predicate Fresh(mem: Memory, used: set<nat>, mem': Memory, used': set<nat>, t: nat, level: nat, lo: nat) {
    && FreshDistinct(mem', used, t, level, lo)
    && forall b: LinearAddress ::
         lo <= Part(b, level) && !Walk(mem, t, level, b).present && Walk(mem', t, level, b).present ==>
           var f := Walk(mem', t, level, b).addr;
           f in used' - used && f < |mem'| && mem'[f] == ZeroFrame()
  }

  /** Of the frames in use only t, and what the tree at t owns, may have changed. */
  ghost predicate Confined(mem: Memory, s: Memory, used: set<nat>, mem': Memory, t: nat, level: nat, lo: nat) {
    && |mem'| == |mem| == |s| && t < |mem|
    && (forall f :: f in used && f < |mem| && f != t && f !in Own(s, t, level, lo) ==> mem'[f] == mem[f])
    && forall i: Index :: i < lo ==> mem'[t][i] == mem[t][i]
  }

  /** Of the frames in use only slot i of t, and what is owned through it, may have changed. */
  ghost predicate SlotConfined(mem: Memory, s: Memory, used: set<nat>, mem': Memory, t: nat, level: nat, i: Index) {
    && |mem'| == |mem| == |s| && t < |mem|
    && (forall f :: f in used && f < |mem| && f != t && f !in Slot(s, s[t][i], level) ==> mem'[f] == mem[f])
    && forall j: Index :: j != i ==> mem'[t][j] == mem[t][j]
  }

  /** The real memory went from m0 to m1 while its shadow went from s0 to s1. */
  ghost predicate Real(m0: Memory, s0: Memory, u0: set<nat>, m1: Memory, s1: Memory,
                       t: nat, level: nat, lo: nat, from: nat, to: nat, writable: bool)
  {
    && Alike(m1, s1) && Confined(m0, s0, u0, m1, t, level, lo)
    && Remapped(m0, m1, t, level, lo, from, to, writable)
  }

  ghost predicate RealSlot(m0: Memory, s0: Memory, u0: set<nat>, m1: Memory, s1: Memory,
                           t: nat, level: nat, lo: nat, i: Index, from: nat, to: nat, writable: bool)
  {
    && Alike(m1, s1) && SlotConfined(m0, s0, u0, m1, t, level, i)
    && Remapped(m0, m1, t, level, lo, from, to, writable)
  }

  lemma RealRefl(mem: Memory, s: Memory, used: set<nat>, t: nat, level: nat, lo: nat, from: nat, to: nat,
                 writable: bool)
    requires Alike(mem, s) && t < |mem|
    ensures Real(mem, s, used, mem, s, t, level, lo, from, to, writable)
  {
  }

  lemma RealSlotRefl(mem: Memory, s: Memory, used: set<nat>, t: nat, level: nat, lo: nat, i: Index,
                     from: nat, to: nat, writable: bool)
    requires Alike(mem, s) && t < |mem|
    ensures RealSlot(mem, s, used, mem, s, t, level, lo, i, from, to, writable)
  {
  }

  lemma AlikeRefl(mem: Memory)
    ensures Alike(mem, mem)
  {
  }

  lemma {:induction false} AlikeWalk(mem: Memory, s: Memory, t: nat, level: nat, b: LinearAddress)
    requires Alike(mem, s)
    ensures AlikeEntry(Walk(mem, t, level, b), Walk(s, t, level, b))
    decreases level
  {
    if t < |mem| {
      var e := mem[t][Part(b, level)];
      assert AlikeEntry(e, s[t][Part(b, level)]);
      if e.present && level > 1 {
        AlikeWalk(mem, s, e.addr, level - 1, b);
      }
    }
  }

  /** Pages that appear in the shadow appear in the memory, and are as fresh there. */
  lemma FreshPages(m0: Memory, s0: Memory, u0: set<nat>, m1: Memory, s1: Memory, u1: set<nat>,
                   t: nat, level: nat, lo: nat, base: set<nat>, from: nat, to: nat, flag: bool)
    requires Alike(m0, s0) && Alike(m1, s1) && Setup(s0, u0, s1, u1, t, level, lo, base, from, to, flag)
    ensures Fresh(m0, u0, m1, u1, t, level, lo)
  {
    hide Alike, Grows, Low, Walk;
    forall b: LinearAddress | lo <= Part(b, level)
      ensures AlikeEntry(Walk(m0, t, level, b), Walk(s0, t, level, b))
      ensures AlikeEntry(Walk(m1, t, level, b), Walk(s1, t, level, b))
      ensures PageEffect(s0, u0, s1, u1, t, level, b, InRange(b, level, from, to), flag)
    {
      AlikeWalk(m0, s0, t, level, b);
      AlikeWalk(m1, s1, t, level, b);
    }
    forall f: nat | f < |s1| && s1[f] == ZeroFrame() ensures f < |m1| && m1[f] == ZeroFrame() {
      ZeroAlike(m1, s1, f);
    }
  }

  lemma ZeroAlike(mem: Memory, s: Memory, f: nat)
    requires Alike(mem, s) && f < |s| && s[f] == ZeroFrame()
    ensures f < |mem| && mem[f] == ZeroFrame()
  {
    forall i: Index ensures mem[f][i] == ZERO {
      assert AlikeEntry(mem[f][i], s[f][i]);
    }
  }

  lemma RemappedTrans(m0: Memory, m1: Memory, m2: Memory, t: nat, level: nat, lo: nat, from: nat, mid: nat, to: nat,
                      writable: bool)
    requires Remapped(m0, m1, t, level, lo, from, to, writable) && from <= mid
    requires Remapped(m1, m2, t, level, lo, mid, to, writable)
    ensures Remapped(m0, m2, t, level, lo, from, to, writable)
  {
    forall b: LinearAddress | lo <= Part(b, level)
      ensures RemapEffect(m0, m2, t, level, b, InRange(b, level, from, to), writable)
    {
      assert RemapEffect(m0, m1, t, level, b, InRange(b, level, from, to), writable);
      assert RemapEffect(m1, m2, t, level, b, InRange(b, level, mid, to), writable);
    }
  }

  lemma ServedKept(m1: Memory, m2: Memory, t: nat, level: nat, lo: nat, from: nat, mid: nat, to: nat, writable: bool,
                   start: nat)
    requires Served(m1, t, level, lo, start, mid, writable)
    requires Remapped(m1, m2, t, level, lo, from, to, writable)
    ensures Served(m2, t, level, lo, start, mid, writable)
  {
    forall b: LinearAddress | lo <= Part(b, level) && InRange(b, level, start, mid)
      ensures Walk(m2, t, level, b).present && Walk(m2, t, level, b).writable == writable
    {
      assert RemapEffect(m1, m2, t, level, b, InRange(b, level, from, to), writable);
    }
  }

  lemma ServedJoin(mem: Memory, t: nat, level: nat, lo: nat, from: nat, mid: nat, to: nat, writable: bool)
    requires Served(mem, t, level, lo, from, mid, writable) && Served(mem, t, level, lo, mid, to, writable)
    ensures Served(mem, t, level, lo, from, to, writable)
  {
    forall b: LinearAddress | lo <= Part(b, level) && InRange(b, level, from, to)
      ensures Walk(mem, t, level, b).present && Walk(mem, t, level, b).writable == writable
    {
      assert InRange(b, level, from, mid) || InRange(b, level, mid, to);
    }
  }

  lemma ServedTo(mem: Memory, t: nat, level: nat, lo: nat, from: nat, mid: nat, to: nat, writable: bool)
    requires Served(mem, t, level, lo, from, mid, writable) && mid == to
    ensures Served(mem, t, level, lo, from, to, writable)
  {
  }

  lemma ServedNone(mem: Memory, t: nat, level: nat, lo: nat, from: nat, writable: bool)
    ensures Served(mem, t, level, lo, from, from, writable)
  {
  }

  /** Nothing lies beyond the span of a table. */
  lemma ServedBeyond(mem: Memory, t: nat, level: nat, lo: nat, span: nat, to: nat, writable: bool)
    requires span == Span(level)
    ensures Served(mem, t, level, lo, span, to, writable)
  {
    forall b: LinearAddress ensures !InRange(b, level, span, to) {
      LowBound(b, level);
    }
  }

  lemma ServedPresent(mem: Memory, t: nat, level: nat, lo: nat, from: nat, to: nat, writable: bool)
    requires Served(mem, t, level, lo, from, to, writable)
    ensures AllPresent(mem, t, level, lo, from, to)
  {
  }

  // ----- Walks outside the slot that changes -----

  lemma {:induction false} WalkThrough(mem: Memory, s: Memory, mem': Memory, c: nat, level: nat, b: LinearAddress)
    requires Alike(mem, s) && |mem'| == |mem|
    requires forall f :: f in Tables(s, c, level, 0) && f < |s| ==> mem'[f] == mem[f]
    ensures Walk(mem', c, level, b) == Walk(mem, c, level, b)
    decreases level
  {
    if c < |mem| {
      var i := Part(b, level);
      assert c in Tables(s, c, level, 0);
      assert AlikeEntry(mem[c][i], s[c][i]);
      if mem[c][i].present && level > 1 {
        SlotInTables(s, c, level, 0, i);
        WalkThrough(mem, s, mem', mem[c][i].addr, level - 1, b);
      }
    }
  }

  /** The tables behind another slot stay as they are. */
  lemma OtherSlot(mem: Memory, s: Memory, used: set<nat>, mem': Memory, t: nat, level: nat, lo: nat, base: set<nat>,
                  i: Index, j: Index)
    requires Space(s, used, t, level, lo, base) && lo <= i && lo <= j && j != i
    requires SlotConfined(mem, s, used, mem', t, level, i)
    ensures forall f :: f in SlotTables(s, s[t][j], level) ==> f < |s| && mem'[f] == mem[f]
  {
    if s[t][j].present && level > 1 {
      ChildSpace(s, used, t, level, lo, base, j);
      TablesOwned(s, s[t][j].addr, level - 1, 0, base);
      assert GoodSlot(s, s[t][j], level, base);
      assert if i < j then Slot(s, s[t][i], level) !! Slot(s, s[t][j], level)
             else Slot(s, s[t][j], level) !! Slot(s, s[t][i], level);
      SlotInOwn(s, t, level, lo, j);
    }
  }

  lemma OutsideWalks(mem: Memory, s: Memory, used: set<nat>, mem': Memory, t: nat, level: nat, lo: nat, base: set<nat>,
                     i: Index, b: LinearAddress)
    requires Space(s, used, t, level, lo, base) && Alike(mem, s)
    requires lo <= i && lo <= Part(b, level) && Part(b, level) != i
    requires SlotConfined(mem, s, used, mem', t, level, i)
    ensures Walk(mem', t, level, b) == Walk(mem, t, level, b)
  {
    var j := Part(b, level);
    OtherSlot(mem, s, used, mem', t, level, lo, base, i, j);
    assert AlikeEntry(mem[t][j], s[t][j]);
    if mem[t][j].present && level > 1 {
      WalkThrough(mem, s, mem', mem[t][j].addr, level - 1, b);
    }
  }

  // ----- The steps of one round -----

  lemma LinkAlike(m1: Memory, m2: Memory, s1: Memory, s2: Memory, used: set<nat>, used': set<nat>, t: nat, i: Index,
                  f: nat,
                  writable: bool, flag: bool)
    requires Alike(m1, s1)
    requires Linked(m1, used, m2, used', t, i, f, writable) && Linked(s1, used, s2, used', t, i, f, flag)
    ensures Alike(m2, s2)
  {
    assert AlikeEntry(m1[t][i], s1[t][i]);
    assert AlikeEntry(LinkedEntry(m1[t][i], f, writable), LinkedEntry(s1[t][i], f, flag));
    forall g, k: Index | 0 <= g < |m2| ensures AlikeEntry(m2[g][k], s2[g][k]) {
      assert AlikeEntry(m1[g][k], s1[g][k]);
    }
  }

  lemma LinkConfined(m1: Memory, s1: Memory, u1: set<nat>, m2: Memory, u2: set<nat>, t: nat, level: nat,
                     i: Index, f: nat, writable: bool)
    requires Alike(m1, s1) && Linked(m1, u1, m2, u2, t, i, f, writable)
    ensures SlotConfined(m1, s1, u1, m2, t, level, i)
    ensures m2[t][i] == LinkedEntry(m1[t][i], f, writable) && m2[t][i].present && m2[t][i].addr == f
    ensures !m1[t][i].present ==> m2[f] == ZeroFrame()
    ensures m1[t][i].present ==> forall g :: 0 <= g < |m1| && g != t ==> m2[g] == m1[g]
  {
  }

  lemma LinkRemaps(m1: Memory, s1: Memory, u1: set<nat>, m2: Memory, u2: set<nat>, t: nat, level: nat, lo: nat,
                   base: set<nat>, addr: LinearAddress, i: Index, f: nat, from: nat, to: nat, writable: bool)
    requires Space(s1, u1, t, level, lo, base) && Alike(m1, s1)
    requires 1 <= level && lo <= i && i == Part(addr, level) && from == Low(addr, level) && from < to
    requires Linked(m1, u1, m2, u2, t, i, f, level > 1 || writable)
    ensures SlotConfined(m1, s1, u1, m2, t, level, i)
    ensures Remapped(m1, m2, t, level, lo, from, to, writable)
    ensures m2[t][i].present && m2[t][i].addr == f
    ensures level == 1 ==> m2[t][i].writable == writable
  {
    hide Space;
    LinkConfined(m1, s1, u1, m2, u2, t, level, i, f, level > 1 || writable);
    forall b: LinearAddress | lo <= Part(b, level)
      ensures RemapEffect(m1, m2, t, level, b, InRange(b, level, from, to), writable)
    {
      if Part(b, level) != i {
        OutsideWalks(m1, s1, u1, m2, t, level, lo, base, i, b);
      } else if level == 1 {
        OneSlot(addr, b, i);
      } else if m1[t][i].present {
        SameBelow(m1, s1, u1, m2, t, level, lo, base, i, b);
      } else {
        assert f < |m2| && !m2[f][Part(b, level - 1)].present;
        assert !Walk(m2, f, level - 1, b).present;
      }
    }
  }

  lemma OneSlot(a: LinearAddress, b: LinearAddress, i: Index)
    requires Part(a, 1) == i == Part(b, 1)
    ensures Low(b, 1) == Low(a, 1)
  {
  }

  /** The store into t does not touch the tables below it. */
  lemma SameBelow(m1: Memory, s1: Memory, u1: set<nat>, m2: Memory, t: nat, level: nat, lo: nat, base: set<nat>,
                  i: Index, b: LinearAddress)
    requires Space(s1, u1, t, level, lo, base) && Alike(m1, s1) && level > 1 && lo <= i == Part(b, level)
    requires |m2| == |m1| && m1[t][i].present && m2[t][i].present && m2[t][i].addr == m1[t][i].addr
    requires forall g :: 0 <= g < |m1| && g != t ==> m2[g] == m1[g]
    ensures Walk(m2, t, level, b) == Walk(m1, t, level, b)
  {
    assert AlikeEntry(m1[t][i], s1[t][i]);
    ChildSpace(s1, u1, t, level, lo, base, i);
    TablesOwned(s1, s1[t][i].addr, level - 1, 0, base);
    WalkThrough(m1, s1, m2, m1[t][i].addr, level - 1, b);
  }

  /** What happened to the table behind slot i, seen from the table above. */
  lemma ChildRemaps(m2: Memory, s2: Memory, u2: set<nat>, m3: Memory, t: nat, level: nat, lo: nat, base: set<nat>,
                    i: Index, f: nat, childFrom: nat, childTo: nat, from: nat, to: nat, writable: bool)
    requires Space(s2, u2, t, level, lo, base) && Alike(m2, s2)
    requires level > 1 && lo <= i && m2[t][i].present && m2[t][i].addr == f
    requires Confined(m2, s2, u2, m3, f, level - 1, 0)
    requires Remapped(m2, m3, f, level - 1, 0, childFrom, childTo, writable)
    requires from == SlotStart(i, level) + childFrom && to == SlotStart(i, level) + childTo
    ensures SlotConfined(m2, s2, u2, m3, t, level, i) && m3[t] == m2[t]
    ensures Remapped(m2, m3, t, level, lo, from, to, writable)
  {
    hide Space, Alike, Confined, SlotConfined;
    ChildConfined(m2, s2, u2, m3, t, level, lo, base, i, f);
    forall b: LinearAddress | lo <= Part(b, level)
      ensures RemapEffect(m2, m3, t, level, b, InRange(b, level, from, to), writable)
    {
      if Part(b, level) != i {
        OutsideWalks(m2, s2, u2, m3, t, level, lo, base, i, b);
      } else {
        assert RemapEffect(m2, m3, f, level - 1, b, InRange(b, level - 1, childFrom, childTo), writable);
      }
    }
  }

  lemma ChildConfined(m2: Memory, s2: Memory, u2: set<nat>, m3: Memory, t: nat, level: nat, lo: nat, base: set<nat>,
                      i: Index, f: nat)
    requires Space(s2, u2, t, level, lo, base) && Alike(m2, s2)
    requires level > 1 && lo <= i && m2[t][i].present && m2[t][i].addr == f
    requires Confined(m2, s2, u2, m3, f, level - 1, 0)
    ensures SlotConfined(m2, s2, u2, m3, t, level, i) && m3[t] == m2[t]
  {
    assert AlikeEntry(m2[t][i], s2[t][i]);
    ChildSpace(s2, u2, t, level, lo, base, i);
    assert GoodSlot(s2, s2[t][i], level, base);
    assert Slot(s2, s2[t][i], level) == {f} + Own(s2, f, level - 1, 0);
  }

  /** One round of the loop, of linking the slot and serving the table behind it. */
  lemma SlotTrans(m1: Memory, s1: Memory, u1: set<nat>, m2: Memory, s2: Memory, u2: set<nat>, m3: Memory,
                  t: nat, level: nat, i: Index, f: nat)
    requires SlotConfined(m1, s1, u1, m2, t, level, i) && SlotConfined(m2, s2, u2, m3, t, level, i)
    requires Linked(s1, u1, s2, u2, t, i, f, true) && level > 1
    requires s1[t][i].present ==> s2 == s1
    ensures SlotConfined(m1, s1, u1, m3, t, level, i)
  {
    if !s1[t][i].present {
      assert s2[f] == ZeroFrame() && s2[t][i].present && s2[t][i].addr == f;
      assert Own(s2, f, level - 1, 0) == {};
    }
  }

  /** A round of the loop, added to those before. */
  lemma RoundReal(m0: Memory, s0: Memory, u0: set<nat>, m1: Memory, s1: Memory, u1: set<nat>, m2: Memory, s2: Memory,
                  t: nat, level: nat, lo: nat, i: Index, from: nat, mid: nat, to: nat, writable: bool)
    requires u0 <= u1 && Own(s1, t, level, lo) <= Own(s0, t, level, lo) + (u1 - u0)
    requires Real(m0, s0, u0, m1, s1, t, level, lo, from, to, writable) && from <= mid && lo <= i
    requires RealSlot(m1, s1, u1, m2, s2, t, level, lo, i, mid, to, writable)
    ensures Real(m0, s0, u0, m2, s2, t, level, lo, from, to, writable)
  {
    hide Remapped, Alike;
    SlotInOwn(s1, t, level, lo, i);
    RemappedTrans(m0, m1, m2, t, level, lo, from, mid, to, writable);
  }

  /** Once a slot is served, its requested pages are there with the permission asked for. */
  lemma ServedSlot(mem: Memory, t: nat, level: nat, lo: nat, a: LinearAddress, num: nat, i: Index, f: nat,
                   from: nat, end: nat, childFrom: nat, childTo: nat, writable: bool)
    requires 1 <= level && lo <= i && t < |mem| && num > 0 && i == Part(a, level)
    requires mem[t][i].present && mem[t][i].addr == f
    requires childFrom == Low(a, level - 1) && childTo == childFrom + num
    requires from == Low(a, level) && end == from + num - Step(a, level, num)
    requires if level > 1 then Served(mem, f, level - 1, 0, childFrom, childTo, writable)
        else mem[t][i].writable == writable
    ensures Served(mem, t, level, lo, from, end, writable)
  {
    StepEnds(a, level, num);
    forall b: LinearAddress | lo <= Part(b, level) && InRange(b, level, from, end)
      ensures Walk(mem, t, level, b).present && Walk(mem, t, level, b).writable == writable
    {
      InSlot(a, b, level);
      assert level > 1 ==> InRange(b, level - 1, childFrom, childTo);
    }
  }

  // ----- The same step on the shadow -----

  /** The memory once slot i of t is linked to f. */
  function LinkIn(s: Memory, t: nat, i: Index, f: nat, writable: bool): Memory
    requires t < |s|
  {
    var row := s[t][i := LinkedEntry(s[t][i], f, writable)];
    if s[t][i].present || f >= |s| then s[t := row] else s[f := ZeroFrame()][t := row]
  }

  lemma ShadowLink(m1: Memory, s1: Memory, u1: set<nat>, m2: Memory, u2: set<nat>, t: nat, i: Index, f: nat,
                   writable: bool, flag: bool)
    requires Alike(m1, s1) && Linked(m1, u1, m2, u2, t, i, f, writable)
    ensures Linked(s1, u1, LinkIn(s1, t, i, f, flag), u2, t, i, f, flag)
    ensures Alike(m2, LinkIn(s1, t, i, f, flag))
    ensures m1 == s1 && writable == flag ==> m2 == LinkIn(s1, t, i, f, flag)
  {
    assert AlikeEntry(m1[t][i], s1[t][i]);
    LinkAlike(m1, m2, s1, LinkIn(s1, t, i, f, flag), u1, u2, t, i, f, writable, flag);
  }

  /** The slot is linked, in the memory and in its shadow. */
  lemma RoundLink(m1: Memory, s1: Memory, u1: set<nat>, m2: Memory, s2: Memory, u2: set<nat>,
                  t: nat, level: nat, lo: nat, base: set<nat>, addr: LinearAddress, i: Index, f: nat,
                  from: nat, to: nat, writable: bool, flag: bool)
    requires Space(s1, u1, t, level, lo, base) && Alike(m1, s1)
    requires 1 <= level && lo <= i && i == Part(addr, level) && from == Low(addr, level) && from < to
    requires Compatible(s1, t, level, lo, from, to, flag)
    requires Linked(m1, u1, m2, u2, t, i, f, level > 1 || writable) && t < |s1|
    requires s2 == LinkIn(s1, t, i, f, level > 1 || flag)
    ensures Linked(s1, u1, s2, u2, t, i, f, level > 1 || flag) && (s1[t][i].present ==> s2 == s1)
    ensures Setup(s1, u1, s2, u2, t, level, lo, base, from, to, flag)
    ensures RealSlot(m1, s1, u1, m2, s2, t, level, lo, i, from, to, writable)
    ensures SlotConfined(s1, s1, u1, s2, t, level, i)
    ensures m1 == s1 && writable == flag ==> m2 == s2
    ensures t < |m2| && m2[t][i].present && m2[t][i].addr == f && (level == 1 ==> m2[t][i].writable == writable)
  {
    hide Space, Setup, Compatible, Linked, Alike, SlotConfined, Remapped, Low, LinkIn;
    ShadowLink(m1, s1, u1, m2, u2, t, i, f, level > 1 || writable, level > 1 || flag);
    LinkRemaps(m1, s1, u1, m2, u2, t, level, lo, base, addr, i, f, from, to, writable);
    LinkStep(s1, u1, s2, u2, t, level, lo, base, addr, i, from, to, flag, f);
    AlikeRefl(s1);
    LinkConfined(s1, s1, u1, s2, u2, t, level, i, f, level > 1 || flag);
    if s1[t][i].present {
      FirstInRange(addr, level, from, to);
      LinkPresent(s1, u1, s2, u2, t, level, lo, base, addr, from, to, flag, f);
    }
    ConfinedLength(m1, s1, u1, m2, t, level, i);
  }

  lemma FirstInRange(a: LinearAddress, level: nat, from: nat, to: nat)
    requires from == Low(a, level) && from < to
    ensures InRange(a, level, from, to)
  {
  }

  lemma ConfinedLength(mem: Memory, s: Memory, used: set<nat>, mem': Memory, t: nat, level: nat, i: Index)
    requires SlotConfined(mem, s, used, mem', t, level, i)
    ensures |mem'| == |mem| == |s| && t < |mem|
  {
  }

  /** The table behind the slot is served, in the memory and in its shadow. */
  lemma RoundChild(m1: Memory, s1: Memory, u1: set<nat>, m2: Memory, s2: Memory, u2: set<nat>,
                   m3: Memory, s3: Memory, u3: set<nat>, t: nat, level: nat, lo: nat, base: set<nat>, base2: set<nat>,
                   i: Index, f: nat, childFrom: nat, childTo: nat, from: nat, to: nat, writable: bool, flag: bool)
    requires Setup(s1, u1, s2, u2, t, level, lo, base, from, to, flag)
    requires Linked(s1, u1, s2, u2, t, i, f, true) && (s1[t][i].present ==> s2 == s1) && level > 1 && lo <= i
    requires RealSlot(m1, s1, u1, m2, s2, t, level, lo, i, from, to, writable)
    requires SlotConfined(s1, s1, u1, s2, t, level, i)
    requires t < |m2| && m2[t][i].present && m2[t][i].addr == f
    requires base2 == NewBase(base, u1, u2, Own(s2, t, level, lo))
    requires Real(m2, s2, u2, m3, s3, f, level - 1, 0, childFrom, childTo, writable)
    requires Setup(s2, u2, s3, u3, f, level - 1, 0, base2, childFrom, childTo, flag)
    requires from == SlotStart(i, level) + childFrom && to == SlotStart(i, level) + childTo
    ensures RealSlot(m1, s1, u1, m3, s3, t, level, lo, i, from, to, writable)
    ensures SlotConfined(s1, s1, u1, s3, t, level, i)
    ensures t < |m3| && m3[t][i].present && m3[t][i].addr == f
  {
    hide Setup, Linked, Alike, SlotConfined, Confined, Remapped, Space;
    SetupSpace(s1, u1, s2, u2, t, level, lo, base, base2, from, to, flag);
    ChildRemaps(m2, s2, u2, m3, t, level, lo, base2, i, f, childFrom, childTo, from, to, writable);
    RemappedTrans(m1, m2, m3, t, level, lo, from, from, to, writable);
    SlotTrans(m1, s1, u1, m2, s2, u2, m3, t, level, i, f);
    ConfinedLength(m2, s2, u2, m3, t, level, i);
    AlikeAt(m2, s2, t, i);
    AlikeRefl(s2);
    SetupOwns(s2, u2, s3, u3, f, level - 1, 0, base2, childFrom, childTo, flag);
    ChildConfined(s2, s2, u2, s3, t, level, lo, base2, i, f);
    SlotTrans(s1, s1, u1, s2, s2, u2, s3, t, level, i, f);
  }

  lemma SetupSpace(s1: Memory, u1: set<nat>, s2: Memory, u2: set<nat>, t: nat, level: nat, lo: nat, base: set<nat>,
                   base2: set<nat>, from: nat, to: nat, flag: bool)
    requires Setup(s1, u1, s2, u2, t, level, lo, base, from, to, flag)
    requires base2 == NewBase(base, u1, u2, Own(s2, t, level, lo))
    ensures Space(s2, u2, t, level, lo, base2)
  {
  }

  lemma AlikeLength(mem: Memory, s: Memory)
    requires Alike(mem, s)
    ensures |s| == |mem|
  {
  }

  lemma AlikeAt(mem: Memory, s: Memory, t: nat, i: Index)
    requires Alike(mem, s) && t < |mem|
    ensures t < |s| && s[t][i].present == mem[t][i].present && s[t][i].addr == mem[t][i].addr
  {
    assert AlikeEntry(mem[t][i], s[t][i]);
  }

  lemma RealParts(m0: Memory, s0: Memory, u0: set<nat>, m1: Memory, s1: Memory,
                  t: nat, level: nat, lo: nat, from: nat, to: nat, writable: bool)
    requires Real(m0, s0, u0, m1, s1, t, level, lo, from, to, writable)
    ensures Alike(m1, s1) && t < |m1| == |s1|
  {
  }

  lemma SlotParts(m0: Memory, s0: Memory, u0: set<nat>, m1: Memory, s1: Memory,
                  t: nat, level: nat, lo: nat, i: Index, from: nat, to: nat, writable: bool)
    requires RealSlot(m0, s0, u0, m1, s1, t, level, lo, i, from, to, writable)
    ensures Remapped(m0, m1, t, level, lo, from, to, writable) && Alike(m1, s1)
  {
  }

  lemma NothingConfined(s: Memory, used: set<nat>, t: nat, level: nat, i: Index)
    requires t < |s|
    ensures SlotConfined(s, s, used, s, t, level, i)
  {
  }

  lemma SetupOwns(s0: Memory, u0: set<nat>, s1: Memory, u1: set<nat>, t: nat, level: nat, lo: nat, base: set<nat>,
                  from: nat, to: nat, flag: bool)
    requires Setup(s0, u0, s1, u1, t, level, lo, base, from, to, flag)
    ensures u0 <= u1 && |s1| == |s0| && t < |s0|
    ensures Own(s1, t, level, lo) <= Own(s0, t, level, lo) + (u1 - u0)
    ensures Confined(s0, s0, u0, s1, t, level, lo)
  {
  }

  // ----- When ownership stays in order -----

  /**
   A run that was served leaves ownership in order only if the pages that were present had the permission asked
   for: a shared page made writable would be owned, and freed, by this tree; an owned page made read-only
   would be owned by nobody.  base' may hold frames that were free before, besides those of base.
   */
  lemma RemapInOrder(m0: Memory, u0: set<nat>, m1: Memory, u1: set<nat>, t: nat, level: nat, lo: nat,
                     base: set<nat>, base': set<nat>, from: nat, to: nat, writable: bool)
    requires Space(m0, u0, t, level, lo, base) && base <= base' && base' - base !! u0
    requires Remapped(m0, m1, t, level, lo, from, to, writable) && Served(m1, t, level, lo, from, to, writable)
    requires Space(m1, u1, t, level, lo, base')
    ensures Compatible(m0, t, level, lo, from, to, writable)
  {
    forall b: LinearAddress | lo <= Part(b, level) && InRange(b, level, from, to) && Walk(m0, t, level, b).present
      ensures Walk(m0, t, level, b).writable == writable
    {
      assert RemapEffect(m0, m1, t, level, b, InRange(b, level, from, to), writable);
      WalkReaches(m0, t, level, lo, base, b);
      WalkReaches(m1, t, level, lo, base', b);
      SlotInOwn(m0, t, level, lo, Part(b, level));
      SlotInOwn(m1, t, level, lo, Part(b, level));
    }
  }

  /**
   A run of SetupPageMap that was served keeps ownership in order exactly if the pages that were present had the
   permission asked for.
   */
  lemma RemapKeepsOrderIff(m0: Memory, u0: set<nat>, m1: Memory, u1: set<nat>, t: nat, level: nat, lo: nat,
                           base: set<nat>, from: nat, to: nat, writable: bool)
    requires Space(m0, u0, t, level, lo, base)
    requires Remapped(m0, m1, t, level, lo, from, to, writable) && Served(m1, t, level, lo, from, to, writable)
    requires Compatible(m0, t, level, lo, from, to, writable) ==>
               Setup(m0, u0, m1, u1, t, level, lo, base, from, to, writable)
    ensures Space(m1, u1, t, level, lo, NewBase(base, u0, u1, Own(m1, t, level, lo)))
       <==> Compatible(m0, t, level, lo, from, to, writable)
  {
    hide Space, Setup, Compatible, Remapped, Served, Own;
    var base' := NewBase(base, u0, u1, Own(m1, t, level, lo));
    if Compatible(m0, t, level, lo, from, to, writable) {
      SetupSpace(m0, u0, m1, u1, t, level, lo, base, base', from, to, writable);
    }
    if Space(m1, u1, t, level, lo, base') {
      RemapInOrder(m0, u0, m1, u1, t, level, lo, base, base', from, to, writable);
    }
  }
}
