/** The steps of the proof that SetupPageMap maps a run of consecutive pages. */
module SetupProof {
  import opened PageTable
  import opened PageMapping

  lemma {:induction false} LowZero(a: LinearAddress, level: nat)
    requires forall l :: 1 <= l <= level ==> Part(a, l) == 0
    ensures Low(a, level) == 0
  {
    if level > 0 {
      LowZero(a, level - 1);
    }
  }

  lemma LowSame(a: LinearAddress, b: LinearAddress, level: nat)
    requires forall l :: 1 <= l <= level ==> Part(a, l) == Part(b, l)
    ensures Low(a, level) == Low(b, level)
  {
  }

  lemma LowSplit(a: LinearAddress, level: nat)
    requires 1 <= level
    ensures SlotStart(Part(a, level), level) <= Low(a, level) < SlotStart(Part(a, level), level) + Span(level - 1)
  {
    LowBound(a, level - 1);
  }

  /** A page at or after a, and before the end of a's slot, is in that slot. */
  lemma InSlot(a: LinearAddress, b: LinearAddress, level: nat)
    requires 1 <= level
    requires Low(a, level) <= Low(b, level) < SlotStart(Part(a, level), level) + Span(level - 1)
    ensures Part(b, level) == Part(a, level)
  {
    hide Low, SlotStart, Span, Part;
    LowSplit(a, level);
    LowSplit(b, level);
    var i: nat, j: nat := Part(a, level), Part(b, level);
    SlotEnd(i, level);
    SlotEnd(j, level);
    if j < i {
      SlotStartMono(j + 1, i, level);
    } else if j > i {
      SlotStartMono(i + 1, j, level);
    }
  }

  /** How many of num pages, taken from a on, do not fit under a table of the given level. */
  function Remaining(a: LinearAddress, level: nat, num: nat): nat {
    if Low(a, level) + num <= Span(level) then 0 else Low(a, level) + num - Span(level)
  }

  /** Mapping part of a range keeps the permission condition for the rest of it. */
  lemma CompatibleKept(mem: Memory, used: set<nat>, mem': Memory, used': set<nat>, t: nat, level: nat, lo: nat,
                       from: nat, to: nat, writable: bool, start: nat)
    requires Mapped(mem, used, mem', used', t, level, lo, from, to, writable)
    requires Compatible(mem, t, level, lo, from, to, writable) && from <= start
    ensures Compatible(mem', t, level, lo, start, to, writable)
  {
    forall b: LinearAddress | lo <= Part(b, level) && InRange(b, level, start, to)
      ensures var w := Walk(mem', t, level, b); w.present ==> w.writable == writable
    {
      assert InRange(b, level, from, to);
      assert PageEffect(mem, used, mem', used', t, level, b, InRange(b, level, from, to), writable);
    }
  }

  lemma {:induction false} WalkIgnoresUpper(mem: Memory, t: nat, level: nat, b: LinearAddress, c: LinearAddress)
    requires forall l :: 1 <= l <= level ==> Part(b, l) == Part(c, l)
    requires 1 <= level
    ensures Walk(mem, t, level, b) == Walk(mem, t, level, c)
    decreases level
  {
    if t < |mem| && mem[t][Part(b, level)].present && level > 1 {
      WalkIgnoresUpper(mem, mem[t][Part(b, level)].addr, level - 1, b, c);
    }
  }

  lemma SetPartLow(b: LinearAddress, level: nat, i: Index)
    requires 1 <= level <= 4
    ensures var c := SetPart(b, level, i);
            && Part(c, level) == i
            && (forall l :: 1 <= l < level ==> Part(c, l) == Part(b, l))
            && Low(c, level - 1) == Low(b, level - 1)
            && Low(c, level) == SlotStart(i, level) + Low(b, level - 1)
  {
    LowSame(SetPart(b, level, i), b, level - 1);
  }

  /** The pages still to be mapped under the slot of addr meet the permission condition. */
  lemma ChildCompatible(mem: Memory, t: nat, level: nat, lo: nat, i: Index, f: nat, writable: bool,
                        from: nat, to: nat, childFrom: nat, childTo: nat)
    requires Compatible(mem, t, level, lo, from, to, writable)
    requires 1 < level <= 4 && lo <= i && t < |mem| && mem[t][i].present && mem[t][i].addr == f
    requires from == SlotStart(i, level) + childFrom && to == SlotStart(i, level) + childTo
    ensures Compatible(mem, f, level - 1, 0, childFrom, childTo, writable)
  {
    var below := level - 1;
    forall b: LinearAddress | 0 <= Part(b, below) && InRange(b, below, childFrom, childTo)
      ensures var w := Walk(mem, f, below, b); w.present ==> w.writable == writable
    {
      var c := SetPart(b, level, i);
      SetPartLow(b, level, i);
      WalkIgnoresUpper(mem, f, below, b, c);
      assert InRange(c, level, from, to);
    }
  }

  /** Where a step that serves num pages from a on leaves off. */
  lemma StepEnds(a: LinearAddress, level: nat, num: nat)
    requires 1 <= level && num > 0
    ensures Low(a, level) == SlotStart(Part(a, level), level) + Low(a, level - 1)
    ensures var s, rem := Span(level - 1), Step(a, level, num);
            var slotEnd, end := SlotStart(Part(a, level), level) + s, Low(a, level) + num - rem;
            && rem <= num && end <= slotEnd <= Span(level)
            && (rem > 0 ==> end == slotEnd)
            && (Part(a, level) == ENTRIES - 1 ==> slotEnd == Span(level))
            && rem == (if level == 1 then num - 1 else Remaining(a, level - 1, num))
  {
    SlotEnd(Part(a, level), level);
    LowBound(a, level - 1);
  }

  /** Pages left over by the step that serves the slot of a. */
  function Step(a: LinearAddress, level: nat, num: nat): (rem: nat)
    requires 1 <= level && num > 0
    ensures rem <= num
  {
    LowBound(a, level - 1);
    if level == 1 then num - 1 else Remaining(a, level - 1, num)
  }

  /** The entry that the loop body leaves in the slot it works on. */
  function LinkedEntry(e: Entry, f: nat, writable: bool): Entry {
    if e.present then e.(user := true, writable := writable)
    else e.(present := true, addr := f, user := true, writable := writable)
  }

  ghost predicate Linked(m1: Memory, u1: set<nat>, m2: Memory, u2: set<nat>, t: nat, i: Index, f: nat, writable: bool)
  {
    && t < |m1| && t in u1
    && if m1[t][i].present then
         f == m1[t][i].addr && u2 == u1 && m2 == m1[t := m1[t][i := LinkedEntry(m1[t][i], f, writable)]]
       else
         f !in u1 && f < |m1| && u2 == u1 + {f}
         && m2 == m1[f := ZeroFrame()][t := m1[t][i := LinkedEntry(m1[t][i], f, writable)]]
  }

  lemma LinkedRow(m1: Memory, m2: Memory, m3: Memory, m4: Memory, t: nat, i: Index, row: Frame, e3: Entry, e4: Entry)
    requires t < |m1| && m2 == m1[t := row]
    requires m3 == m2[t := m2[t][i := e3]] && m4 == m3[t := m3[t][i := e4]]
    ensures m4 == m1[t := row[i := e4]]
  {
    assert row[i := e3][i := e4] == row[i := e4];
  }

  /** The three stores of one step, put together. */
  lemma StoresLink(m1: Memory, u1: set<nat>, m2: Memory, m3: Memory, m4: Memory, u4: set<nat>,
                   t: nat, i: Index, f: nat, writable: bool)
    requires t < |m1| && t in u1
    requires if m1[t][i].present then f == m1[t][i].addr && u4 == u1 && m2 == m1
             else f !in u1 && f < |m1| && u4 == u1 + {f}
                  && m2 == m1[f := ZeroFrame()][t := m1[t][i := m1[t][i].(present := true, addr := f)]]
    requires m3 == m2[t := m2[t][i := m2[t][i].(user := true)]]
    requires m4 == m3[t := m3[t][i := m3[t][i].(writable := writable)]]
    ensures Linked(m1, u1, m4, u4, t, i, f, writable)
  {
    var e := m1[t][i];
    if e.present {
      LinkedRow(m1, m2, m3, m4, t, i, m1[t], e.(user := true), LinkedEntry(e, f, writable));
    } else {
      var m := m1[f := ZeroFrame()];
      var row := m1[t][i := e.(present := true, addr := f)];
      assert m[t] == m1[t] && m2 == m[t := row];
      LinkedRow(m, m2, m3, m4, t, i, row, m2[t][i].(user := true), LinkedEntry(e, f, writable));
      assert row[i := LinkedEntry(e, f, writable)] == m1[t][i := LinkedEntry(e, f, writable)];
    }
  }

  lemma LinkPresent(m1: Memory, u1: set<nat>, m2: Memory, u2: set<nat>, t: nat, level: nat, lo: nat, base: set<nat>,
                    addr: LinearAddress, from: nat, to: nat, writable: bool, f: nat)
    requires Space(m1, u1, t, level, lo, base)
    requires 1 <= level && lo <= Part(addr, level) && InRange(addr, level, from, to)
    requires Compatible(m1, t, level, lo, from, to, writable)
    requires Linked(m1, u1, m2, u2, t, Part(addr, level), f, level > 1 || writable) && m1[t][Part(addr, level)].present
    ensures m2 == m1
  {
    var i := Part(addr, level);
    assert GoodSlot(m1, m1[t][i], level, base);
    assert LinkedEntry(m1[t][i], f, level > 1 || writable) == m1[t][i];
    assert m1[t][i := m1[t][i]] == m1[t];
  }

  /** The slot of addr has got its child or its page. */
  lemma LinkStep(m1: Memory, u1: set<nat>, m2: Memory, u2: set<nat>, t: nat, level: nat, lo: nat, base: set<nat>,
                 addr: LinearAddress, i: Index, from: nat, to: nat, writable: bool, f: nat)
    requires Space(m1, u1, t, level, lo, base)
    requires 1 <= level && lo <= i && i == Part(addr, level) && from == Low(addr, level) && from < to
    requires Compatible(m1, t, level, lo, from, to, writable)
    requires Linked(m1, u1, m2, u2, t, i, f, level > 1 || writable)
    ensures Setup(m1, u1, m2, u2, t, level, lo, base, from, to, writable)
    ensures m2[t][i].present && m2[t][i].addr == f
  {
    hide Setup, Compatible, Low, Span, Tree, Own;
    var start := SlotStart(i, level);
    StepEnds(addr, level, 1);
    LowZero(addr, 0);
    if m1[t][i].present {
      LinkPresent(m1, u1, m2, u2, t, level, lo, base, addr, from, to, writable, f);
      SetupRefl(m1, u1, t, level, lo, base, from, to, writable);
    } else {
      LinkAbsent(m1, u1, m2, u2, t, level, lo, base, i, start, writable, f);
      if level > 1 {
        SetupEmpty(m1, u1, m2, u2, t, level, lo, base, start, writable, from, to);
      } else {
        SetupWider(m1, u1, m2, u2, t, level, lo, base, start, start + 1, writable, from, to);
      }
    }
  }

  lemma LinkAbsent(m1: Memory, u1: set<nat>, m2: Memory, u2: set<nat>, t: nat, level: nat, lo: nat, base: set<nat>,
                   i: Index, start: nat, writable: bool, f: nat)
    requires Space(m1, u1, t, level, lo, base)
    requires 1 <= level && lo <= i && start == SlotStart(i, level) && !m1[t][i].present
    requires Linked(m1, u1, m2, u2, t, i, f, level > 1 || writable)
    ensures Setup(m1, u1, m2, u2, t, level, lo, base, start, start + (if level > 1 then 0 else 1), writable)
    ensures m2[t][i].present && m2[t][i].addr == f
  {
    SetupLink(m1, u1, m2, t, level, lo, base, i, f, LinkedEntry(m1[t][i], f, level > 1 || writable), writable);
  }

  lemma SetupEmpty(mem: Memory, used: set<nat>, mem': Memory, used': set<nat>, t: nat, level: nat, lo: nat,
                   base: set<nat>, start: nat, writable: bool, from: nat, to: nat)
    requires Setup(mem, used, mem', used', t, level, lo, base, start, start, writable)
    ensures Setup(mem, used, mem', used', t, level, lo, base, from, to, writable)
  {
    forall b: LinearAddress | lo <= Part(b, level)
      ensures PageEffect(mem, used, mem', used', t, level, b, InRange(b, level, from, to), writable)
    {
      assert PageEffect(mem, used, mem', used', t, level, b, InRange(b, level, start, start), writable);
    }
  }

  /** Ready for the recursive call on the table f behind slot i. */
  lemma TableReady(m1: Memory, u1: set<nat>, m2: Memory, u2: set<nat>, t: nat, level: nat, lo: nat,
                   base: set<nat>, base2: set<nat>, addr: LinearAddress, i: Index, f: nat, writable: bool,
                   from: nat, to: nat, childFrom: nat, childTo: nat)
    requires Space(m1, u1, t, level, lo, base)
    requires 1 < level <= 4 && lo <= i && i == Part(addr, level) && from == Low(addr, level) && from < to
    requires Compatible(m1, t, level, lo, from, to, writable)
    requires Linked(m1, u1, m2, u2, t, i, f, true)
    requires base2 == NewBase(base, u1, u2, Own(m2, t, level, lo))
    requires from == SlotStart(i, level) + childFrom && to == SlotStart(i, level) + childTo
    ensures Space(m2, u2, f, level - 1, 0, base2)
    ensures Compatible(m2, f, level - 1, 0, childFrom, childTo, writable)
  {
    LinkStep(m1, u1, m2, u2, t, level, lo, base, addr, i, from, to, writable, f);
    ChildSpace(m2, u2, t, level, lo, base2, i);
    CompatibleKept(m1, u1, m2, u2, t, level, lo, from, to, writable, from);
    ChildCompatible(m2, t, level, lo, i, f, writable, from, to, childFrom, childTo);
  }

  /** The recursive call, seen from the table above. */
  lemma TableDone(m1: Memory, u1: set<nat>, m2: Memory, u2: set<nat>, m3: Memory, u3: set<nat>,
                  t: nat, level: nat, lo: nat, base: set<nat>, base2: set<nat>, addr: LinearAddress, i: Index, f: nat,
                  from: nat, to: nat, childFrom: nat, childTo: nat, writable: bool)
    requires Space(m1, u1, t, level, lo, base)
    requires 1 < level <= 4 && lo <= i && i == Part(addr, level) && from == Low(addr, level) && from < to
    requires Compatible(m1, t, level, lo, from, to, writable)
    requires Linked(m1, u1, m2, u2, t, i, f, true)
    requires base2 == NewBase(base, u1, u2, Own(m2, t, level, lo))
    requires from == SlotStart(i, level) + childFrom && to == SlotStart(i, level) + childTo
    requires Setup(m2, u2, m3, u3, f, level - 1, 0, base2, childFrom, childTo, writable)
    ensures Setup(m1, u1, m3, u3, t, level, lo, base, from, to, writable)
    ensures t < |m3| && m3[t][i].present && m3[t][i].addr == f
  {
    hide Low, Compatible, Linked;
    LinkStep(m1, u1, m2, u2, t, level, lo, base, addr, i, from, to, writable, f);
    SetupDescend(m2, u2, m3, u3, t, level, lo, base2, NewBase(base2, u2, u3, Own(m3, f, level - 1, 0)), i, f,
                 childFrom, childTo, from, to, writable);
    SetupTrans(m1, u1, m2, u2, m3, u3, t, level, lo, base, from, to, writable);
  }

  /** One more round of the loop, added to those before. */
  lemma RoundDone(m0: Memory, u0: set<nat>, m1: Memory, u1: set<nat>, m2: Memory, u2: set<nat>,
                  t: nat, level: nat, lo: nat, base: set<nat>, base1: set<nat>,
                  from: nat, mid: nat, to: nat, writable: bool)
    requires Space(m0, u0, t, level, lo, base)
    requires Setup(m0, u0, m1, u1, t, level, lo, base, from, to, writable)
    requires from <= mid && base1 == NewBase(base, u0, u1, Own(m1, t, level, lo))
    requires Setup(m1, u1, m2, u2, t, level, lo, base1, mid, to, writable)
    ensures Setup(m0, u0, m2, u2, t, level, lo, base, from, to, writable)
  {
    SetupWider(m1, u1, m2, u2, t, level, lo, base1, mid, to, writable, from, to);
    SetupTrans(m0, u0, m1, u1, m2, u2, t, level, lo, base, from, to, writable);
  }

  /** What a round of the loop may assume. */
  lemma RoundReady(m0: Memory, u0: set<nat>, m1: Memory, u1: set<nat>, t: nat, level: nat, lo: nat,
                   base: set<nat>, base1: set<nat>, from: nat, mid: nat, to: nat, writable: bool)
    requires Setup(m0, u0, m1, u1, t, level, lo, base, from, to, writable)
    requires Compatible(m0, t, level, lo, from, to, writable) && from <= mid
    requires base1 == NewBase(base, u0, u1, Own(m1, t, level, lo))
    ensures Space(m1, u1, t, level, lo, base1)
    ensures Compatible(m1, t, level, lo, mid, to, writable)
  {
    CompatibleKept(m0, u0, m1, u1, t, level, lo, from, to, writable, mid);
  }
}
