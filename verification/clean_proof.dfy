/** What CleanPageMap frees, and the steps of the proof that it frees each such frame once. */
module CleanProof {
  import opened PageTable

  /** The frames freed when slots Part(a).. up to k of table t are cleaned. */
  ghost function Freed(mem: Memory, t: nat, level: nat, a: LinearAddress, k: nat): set<nat>
    decreases level, 1
  {
    if t >= |mem| then {} else
    set i: Index, f: nat | Part(a, level) <= i < k && f in FreedSlot(mem, mem[t][i], level, a) :: f
  }

  ghost function FreedSlot(mem: Memory, e: Entry, level: nat, a: LinearAddress): set<nat>
    decreases level, 0
  {
    if !e.present then {} else
    (if e.writable then {e.addr} else {}) + (if level > 1 then Freed(mem, e.addr, level - 1, a, ENTRIES) else {})
  }

  /** Cleaning starts at the first page of the slot it starts in. */
  predicate AtSlotStart(a: LinearAddress, level: nat) {
    forall l :: 1 <= l < level ==> Part(a, l) == 0
  }

  /** From the start of a slot, everything owned from there on is freed. */
  lemma {:induction false} FreedAll(mem: Memory, t: nat, level: nat, a: LinearAddress)
    requires AtSlotStart(a, level)
    ensures Freed(mem, t, level, a, ENTRIES) == Own(mem, t, level, Part(a, level))
    decreases level
  {
    if t < |mem| {
      forall i: Index ensures FreedSlot(mem, mem[t][i], level, a) == Slot(mem, mem[t][i], level) {
        if mem[t][i].present && level > 1 {
          assert Part(a, level - 1) == 0;
          FreedAll(mem, mem[t][i].addr, level - 1, a);
        }
      }
    }
  }

  lemma {:induction false} FreedOwned(mem: Memory, t: nat, level: nat, a: LinearAddress, k: nat)
    ensures Freed(mem, t, level, a, k) <= Own(mem, t, level, Part(a, level))
    decreases level
  {
    if t < |mem| {
      forall i: Index ensures FreedSlot(mem, mem[t][i], level, a) <= Slot(mem, mem[t][i], level) {
        FreedSlotOwned(mem, mem[t][i], level, a);
      }
    }
  }

  lemma {:induction false} FreedSlotOwned(mem: Memory, e: Entry, level: nat, a: LinearAddress)
    ensures FreedSlot(mem, e, level, a) <= Slot(mem, e, level)
    decreases level
  {
    if e.present && level > 1 && e.addr < |mem| {
      forall i: Index ensures FreedSlot(mem, mem[e.addr][i], level - 1, a) <= Slot(mem, mem[e.addr][i], level - 1) {
        FreedSlotOwned(mem, mem[e.addr][i], level - 1, a);
      }
    }
  }

  lemma {:induction false} FreedFrame(mem: Memory, mem': Memory, t: nat, level: nat, base: set<nat>, a: LinearAddress,
                                      k: nat)
    requires Tree(mem, t, level, 0, base) && |mem'| == |mem|
    requires forall f :: f in Own(mem, t, level, 0) + {t} && f < |mem| ==> mem'[f] == mem[f]
    ensures Freed(mem', t, level, a, k) == Freed(mem, t, level, a, k)
    decreases level
  {
    forall i: Index
      ensures FreedSlot(mem', mem[t][i], level, a) == FreedSlot(mem, mem[t][i], level, a)
    {
      assert GoodSlot(mem, mem[t][i], level, base);
      SlotInOwn(mem, t, level, 0, i);
      if mem[t][i].present && level > 1 {
        FreedFrame(mem, mem', mem[t][i].addr, level - 1, base, a, ENTRIES);
      }
    }
  }

  /** The frames reached through slots from .. k of t. */
  ghost function SlotsBelow(mem: Memory, t: nat, level: nat, from: nat, k: nat): set<nat> {
    if t >= |mem| then {} else
    set i: Index, f: nat | from <= i < k && f in Slot(mem, mem[t][i], level) :: f
  }

  /** Slots up to k have been cleaned; the rest is as it was. */
  ghost predicate Cleaned(m0: Memory, u0: set<nat>, mem: Memory, used: set<nat>,
                          t: nat, level: nat, a: LinearAddress, k: nat)
  {
    && |mem| == |m0| && t < |mem|
    && used == u0 - Freed(m0, t, level, a, k)
    && (forall f :: 0 <= f < |m0| && f != t && f !in SlotsBelow(m0, t, level, Part(a, level), k) ==> mem[f] == m0[f])
    && forall j: Index :: mem[t][j] ==
         if Part(a, level) <= j < k && m0[t][j].present then ZERO else m0[t][j]
  }

  lemma CleanedNothing(mem: Memory, used: set<nat>, t: nat, level: nat, a: LinearAddress)
    requires t < |mem|
    ensures Cleaned(mem, used, mem, used, t, level, a, Part(a, level))
  {
    assert Freed(mem, t, level, a, Part(a, level)) == {};
  }

  /** What is not yet cleaned is still whole. */
  lemma SlotIntact(m0: Memory, u0: set<nat>, mem: Memory, used: set<nat>, t: nat, level: nat, lo: nat, base: set<nat>,
                   a: LinearAddress, i: Index)
    requires Space(m0, u0, t, level, lo, base) && lo <= Part(a, level) <= i
    requires Cleaned(m0, u0, mem, used, t, level, a, i)
    requires m0[t][i].present
    ensures mem[t][i] == m0[t][i] && m0[t][i].addr < |mem| && t != m0[t][i].addr
    ensures Slot(m0, m0[t][i], level) <= used
    ensures level > 1 ==>
      && m0[t][i].writable
      && Space(mem, used, m0[t][i].addr, level - 1, 0, base)
      && Own(mem, m0[t][i].addr, level - 1, 0) == Own(m0, m0[t][i].addr, level - 1, 0)
      && Freed(mem, m0[t][i].addr, level - 1, a, ENTRIES) == Freed(m0, m0[t][i].addr, level - 1, a, ENTRIES)
      && t !in Own(m0, m0[t][i].addr, level - 1, 0)
  {
    var f := m0[t][i].addr;
    assert GoodSlot(m0, m0[t][i], level, base);
    SlotInOwn(m0, t, level, lo, i);
    forall g | g in Slot(m0, m0[t][i], level)
      ensures g !in SlotsBelow(m0, t, level, Part(a, level), i) && g in used
    {
      FreedWithin(m0, t, level, a, i);
    }
    FreedOwned(m0, t, level, a, i);
    OwnShrinks(m0, t, level, lo, Part(a, level));
    if level > 1 {
      OwnFrame(m0, mem, f, level - 1, 0, base);
      FreedFrame(m0, mem, f, level - 1, base, a, ENTRIES);
    }
  }

  lemma FreedWithin(mem: Memory, t: nat, level: nat, a: LinearAddress, k: nat)
    ensures Freed(mem, t, level, a, k) <= SlotsBelow(mem, t, level, Part(a, level), k)
  {
    if t < |mem| {
      forall i: Index ensures FreedSlot(mem, mem[t][i], level, a) <= Slot(mem, mem[t][i], level) {
        FreedSlotOwned(mem, mem[t][i], level, a);
      }
    }
  }

  lemma OwnShrinks(mem: Memory, t: nat, level: nat, lo: nat, lo': nat)
    requires lo <= lo'
    ensures Own(mem, t, level, lo') <= Own(mem, t, level, lo)
  {
  }

  /** One more slot, when its entry was absent. */
  lemma CleanedSkip(m0: Memory, u0: set<nat>, mem: Memory, used: set<nat>, t: nat, level: nat, a: LinearAddress,
                    i: Index)
    requires Cleaned(m0, u0, mem, used, t, level, a, i) && Part(a, level) <= i && !m0[t][i].present
    ensures Cleaned(m0, u0, mem, used, t, level, a, i + 1)
  {
    assert FreedSlot(m0, m0[t][i], level, a) == {};
    forall f ensures f in Freed(m0, t, level, a, i + 1) <==> f in Freed(m0, t, level, a, i) {
      FreedOneMore(m0, t, level, a, i, f);
    }
    SlotsOneMore(m0, t, level, Part(a, level), i);
  }

  lemma FreedOneMore(mem: Memory, t: nat, level: nat, a: LinearAddress, i: Index, f: nat)
    requires t < |mem| && Part(a, level) <= i
    ensures f in Freed(mem, t, level, a, i + 1)
       <==> f in Freed(mem, t, level, a, i) || f in FreedSlot(mem, mem[t][i], level, a)
  {
  }

  lemma SlotsOneMore(mem: Memory, t: nat, level: nat, from: nat, i: Index)
    requires t < |mem| && from <= i
    ensures SlotsBelow(mem, t, level, from, i + 1) == SlotsBelow(mem, t, level, from, i) + Slot(mem, mem[t][i], level)
  {
  }

  /** One more slot, cleaned. */
  lemma CleanedStep(m0: Memory, u0: set<nat>, m1: Memory, u1: set<nat>, m2: Memory, u2: set<nat>, m3: Memory,
                    u3: set<nat>,
                    t: nat, level: nat, a: LinearAddress, i: Index, f: nat)
    requires Cleaned(m0, u0, m1, u1, t, level, a, i) && Part(a, level) <= i
    requires m0[t][i].present && m0[t][i].addr == f && t != f
    requires |m2| == |m1| && m2[t] == m1[t]
    requires if level > 1
             then u2 == u1 - Freed(m0, f, level - 1, a, ENTRIES)
                  && forall g :: 0 <= g < |m0| && g != f && g !in Own(m0, f, level - 1, 0) ==> m2[g] == m1[g]
             else u2 == u1 && m2 == m1
    requires level > 1 ==> m0[t][i].writable
    requires u3 == if m0[t][i].writable then u2 - {f} else u2
    requires m3 == m2[t := m2[t][i := ZERO]]
    ensures Cleaned(m0, u0, m3, u3, t, level, a, i + 1)
  {
    forall g ensures g in Freed(m0, t, level, a, i + 1)
                <==> g in Freed(m0, t, level, a, i) || g in FreedSlot(m0, m0[t][i], level, a) {
      FreedOneMore(m0, t, level, a, i, g);
    }
    assert u3 == u1 - FreedSlot(m0, m0[t][i], level, a);
    SlotsOneMore(m0, t, level, Part(a, level), i);
  }
}
