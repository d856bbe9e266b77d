/** The page-table operations of the kernel, working in place on physical memory and the frame bitmap. */
module Paging {
  import opened Errors
  import opened PageTable
  import opened PageMapping
  import opened MemoryManager
  import opened SetupProof
  import opened Permission
  import opened Shadow
  import opened FrameCount
  import opened CopyOnWrite
  import opened CleanProof
  import opened CopyProof

  /** Entries of a top table that map the kernel; every address space shares them. */
  const KERNEL_ENTRIES: nat := 256

  /** The page of a now has frame p to itself, with the contents it had; all else is unchanged. */
  ghost predicate PrivateCopy(m0: Memory, u0: set<nat>, m1: Memory, u1: set<nat>, root: nat, base: set<nat>,
                              a: LinearAddress, p: nat)
  {
    && p !in u0 && u1 == u0 + {p} && p < |m1|
    && Grows(m0, u0, m1, u1, root, 4, KERNEL_ENTRIES, base)
    && Own(m1, root, 4, KERNEL_ENTRIES) == Own(m0, root, 4, KERNEL_ENTRIES) + {p}
    && Repointed(m0, m1, root, 4, KERNEL_ENTRIES, a, p)
    && Walk(m0, root, 4, a).addr < |m0| && m1[p] == m0[Walk(m0, root, 4, a).addr]
  }

  /** What mapping a run of pages does to the address space at root. */
  ghost predicate MapsPages(m0: Memory, u0: set<nat>, m1: Memory, u1: set<nat>, root: nat, base: set<nat>,
                            from: nat, to: nat, writable: bool, served: bool)
  {
    && |m1| == |m0| && u0 <= u1
    && Remapped(m0, m1, root, 4, KERNEL_ENTRIES, from, to, writable) && Fresh(m0, u0, m1, u1, root, 4, KERNEL_ENTRIES)
    && (served ==> Served(m1, root, 4, KERNEL_ENTRIES, from, to, writable))
    && (Space(m0, u0, root, 4, KERNEL_ENTRIES, base) ==>
          && (Compatible(m0, root, 4, KERNEL_ENTRIES, from, to, writable) ==>
                Setup(m0, u0, m1, u1, root, 4, KERNEL_ENTRIES, base, from, to, writable))
          && (served ==>
                (Space(m1, u1, root, 4, KERNEL_ENTRIES, NewBase(base, u0, u1, Own(m1, root, 4, KERNEL_ENTRIES)))
                 <==> Compatible(m0, root, 4, KERNEL_ENTRIES, from, to, writable))))
  }

  lemma MapsPagesAre(m0: Memory, s0: Memory, u0: set<nat>, m1: Memory, s1: Memory, u1: set<nat>, root: nat,
                     base: set<nat>, b: set<nat>, from: nat, to: nat, writable: bool, flag: bool, served: bool)
    requires Alike(m0, s0)
    requires Real(m0, s0, u0, m1, s1, root, 4, KERNEL_ENTRIES, from, to, writable)
    requires Setup(s0, u0, s1, u1, root, 4, KERNEL_ENTRIES, b, from, to, flag)
    requires served ==> Served(m1, root, 4, KERNEL_ENTRIES, from, to, writable)
    requires Space(m0, u0, root, 4, KERNEL_ENTRIES, base)
             && Compatible(m0, root, 4, KERNEL_ENTRIES, from, to, writable) ==>
               s0 == m0 && s1 == m1 && b == base && flag == writable
    ensures MapsPages(m0, u0, m1, u1, root, base, from, to, writable, served)
  {
    hide Setup, Space, Compatible, Served, Remapped, Alike, Own, Fresh;
    FreshPages(m0, s0, u0, m1, s1, u1, root, 4, KERNEL_ENTRIES, b, from, to, flag);
    SetupOwns(s0, u0, s1, u1, root, 4, KERNEL_ENTRIES, b, from, to, flag);
    if Space(m0, u0, root, 4, KERNEL_ENTRIES, base) && served {
      RemapKeepsOrderIff(m0, u0, m1, u1, root, 4, KERNEL_ENTRIES, base, from, to, writable);
    }
  }

  /** A tree does not see what a free frame holds. */
  lemma FreshFrameKeeps(m0: Memory, u0: set<nat>, m1: Memory, root: nat, base: set<nat>, p: nat)
    requires Space(m0, u0, root, 4, KERNEL_ENTRIES, base)
    requires p !in u0 && p < |m0| == |m1| && forall f :: 0 <= f < |m0| && f != p ==> m1[f] == m0[f]
    ensures Space(m1, u0, root, 4, KERNEL_ENTRIES, base)
    ensures Own(m1, root, 4, KERNEL_ENTRIES) == Own(m0, root, 4, KERNEL_ENTRIES)
    ensures SameWalks(m0, m1, root, 4, KERNEL_ENTRIES)
  {
    OwnFrame(m0, m1, root, 4, KERNEL_ENTRIES, base);
  }

  lemma CopySource(m0: Memory, u0: set<nat>, m1: Memory, root: nat, base: set<nat>, a: LinearAddress, p: nat)
    requires Space(m0, u0, root, 4, KERNEL_ENTRIES, base) && KERNEL_ENTRIES <= a.pml4
    requires Walk(m0, root, 4, a).present
    requires p !in u0 && p < |m0| && m1 == m0[p := ZeroFrame()]
    ensures Walk(m1, root, 4, a) == Walk(m0, root, 4, a)
    ensures var w := Walk(m0, root, 4, a).addr; w in u0 && w < |m0| && m1[w] == m0[w]
  {
    FreshFrameKeeps(m0, u0, m1, root, base, p);
    WalkUsed(m0, u0, root, 4, KERNEL_ENTRIES, base, a);
  }

  lemma CopyReady(m0: Memory, u0: set<nat>, m2: Memory, root: nat, base: set<nat>, a: LinearAddress, p: nat, shown: nat)
    requires Space(m0, u0, root, 4, KERNEL_ENTRIES, base) && KERNEL_ENTRIES <= a.pml4
    requires Walk(m0, root, 4, a).present && !Walk(m0, root, 4, a).writable
    requires p !in u0 && p < |m0| && shown == Walk(m0, root, 4, a).addr && shown < |m0|
    requires m2 == m0[p := ZeroFrame()][p := m0[shown]]
    ensures Replaceable(m2, u0 + {p}, root, 4, KERNEL_ENTRIES, base, a, p)
    ensures Own(m2, root, 4, KERNEL_ENTRIES) == Own(m0, root, 4, KERNEL_ENTRIES)
    ensures SameWalks(m0, m2, root, 4, KERNEL_ENTRIES)
    ensures m2 == m0[p := m0[shown]]
  {
    FreshFrameKeeps(m0, u0, m2, root, base, p);
    assert u0 + {p} - {p} == u0;
  }

  lemma PrivateCopyDone(m0: Memory, u0: set<nat>, m2: Memory, m3: Memory, u3: set<nat>, root: nat, base: set<nat>,
                        a: LinearAddress, p: nat)
    requires Space(m0, u0, root, 4, KERNEL_ENTRIES, base) && KERNEL_ENTRIES <= a.pml4
    requires p !in u0 && p < |m0| && u3 == u0 + {p}
    requires Walk(m0, root, 4, a).addr < |m0| && m2 == m0[p := m0[Walk(m0, root, 4, a).addr]]
    requires Own(m2, root, 4, KERNEL_ENTRIES) == Own(m0, root, 4, KERNEL_ENTRIES)
    requires SameWalks(m0, m2, root, 4, KERNEL_ENTRIES)
    requires Replaced(m2, u3, m3, root, 4, KERNEL_ENTRIES, base, a, p)
    ensures PrivateCopy(m0, u0, m3, u3, root, base, a, p)
  {
    hide Walk, Own, SamePage;
    assert u3 - {p} == u0;
    forall b: LinearAddress | KERNEL_ENTRIES <= Part(b, 4)
      ensures if SamePage(a, b, 4) then Walk(m3, root, 4, b) == Walk(m0, root, 4, b).(addr := p, writable := true)
              else SamePageThrough(m0, m3, root, 4, b)
    {
      if !SamePage(a, b, 4) && Walk(m0, root, 4, b).present {
        assert SamePageThrough(m2, m3, root, 4, b);
        WalkUsed(m0, u0, root, 4, KERNEL_ENTRIES, base, b);
      }
    }
  }

  /** What a cleaned child leaves alone, as the table above needs it. */
  lemma CleanedChild(m1: Memory, u1: set<nat>, m2: Memory, u2: set<nat>, f: nat, level: nat, a: LinearAddress)
    requires Cleaned(m1, u1, m2, u2, f, level, a, ENTRIES)
    requires f in u1 && f !in Own(m1, f, level, 0)
    ensures f in u2
    ensures forall g :: 0 <= g < |m1| && g != f && g !in Own(m1, f, level, 0) ==> m2[g] == m1[g]
  {
    FreedOwned(m1, f, level, a, ENTRIES);
    OwnShrinks(m1, f, level, 0, Part(a, level));
    forall g | g in SlotsBelow(m1, f, level, Part(a, level), ENTRIES) ensures g in Own(m1, f, level, 0) {
    }
  }

  lemma SameParts(a: LinearAddress, b: LinearAddress)
    requires forall k :: 1 <= k <= 4 ==> Part(a, k) == Part(b, k)
    ensures a == b
  {
    assert Part(a, 1) == Part(b, 1) && Part(a, 2) == Part(b, 2) && Part(a, 3) == Part(b, 3) && Part(a, 4) == Part(b, 4);
  }

  /** The address of the slot after a's, as the loop computes it. */
  method NextSlot(a: LinearAddress, level: nat) returns (next: LinearAddress)
    requires 1 <= level <= 4 && Part(a, level) < ENTRIES - 1
    ensures Part(next, level) == Part(a, level) + 1
    ensures Low(next, level) == SlotStart(Part(a, level), level) + Span(level - 1)
    ensures next == NextAddress(a, level)
  {
    next := SetPart(a, level, Part(a, level) + 1);
    var l := level - 1;
    while l >= 1
      invariant 0 <= l < level
      invariant forall k :: l < k < level ==> Part(next, k) == 0
      invariant Part(next, level) == Part(a, level) + 1
      invariant forall k :: level < k <= 4 ==> Part(next, k) == Part(a, k)
    {
      ghost var before := next;
      next := SetPart(next, l, 0);
      assert forall k :: l < k <= 4 ==> Part(next, k) == Part(before, k);
      assert Part(next, level) == Part(before, level) && Part(next, l) == 0;
      l := l - 1;
    }
    LowZero(next, level - 1);
    SameParts(next, NextAddress(a, level));
  }

  class Machine {
    var mem: Memory
    const memoryManager: BitmapMemoryManager
    var cr3: nat

    constructor (mem: Memory, memoryManager: BitmapMemoryManager, cr3: nat)
      ensures this.mem == mem && this.memoryManager == memoryManager && this.cr3 == cr3
    {
      this.mem := mem;
      this.memoryManager := memoryManager;
      this.cr3 := cr3;
    }

    ghost predicate Valid()
      reads this, memoryManager
    {
      memoryManager.Valid() && memoryManager.Capacity() == |mem|
    }

    ghost function Used(): set<nat>
      reads memoryManager.allocMap
    {
      memoryManager.Allocated()
    }

    /** The number of frames still to be had. */
    ghost function Free(): nat
      reads memoryManager, memoryManager.allocMap
    {
      |FreeFrames(Used(), memoryManager.rangeBegin, memoryManager.rangeEnd)|
    }

    method NewPageMap() returns (r: WithError<nat>)
      requires Valid()
      modifies `mem, memoryManager.allocMap
      ensures cr3 == old(cr3)
      ensures Valid()
      ensures match FirstFit(old(Used()), memoryManager.rangeBegin, memoryManager.rangeEnd, 1)
              case Some(f) =>
                && r == WithError(f, Success)
                && f !in old(Used()) && f < |old(mem)|
                && Used() == old(Used()) + {f} && mem == old(mem)[f := ZeroFrame()]
              case None =>
                r.error == NoEnoughMemory && Used() == old(Used()) && mem == old(mem)
      ensures r.error == Success <==> old(Free()) > 0
      ensures Free() == if r.error == Success then old(Free()) - 1 else 0
    {
      OneFrame(Used(), memoryManager.rangeBegin, memoryManager.rangeEnd);
      FirstFitIsLowest(Used(), memoryManager.rangeBegin, memoryManager.rangeEnd, 1);
      var frame := memoryManager.Allocate(1);
      if frame.error != Success {
        return frame;
      }
      assert Available(old(Used()), frame.value, memoryManager.rangeEnd);
      assert Run(frame.value, 1) == {frame.value};
      mem := mem[frame.value := ZeroFrame()];
      return frame;
    }

    /** Free one frame.  Every caller here proves the frame is allocated: none is freed twice. */
    method FreeFrame(frame: nat)
      requires Valid() && frame in Used()
      modifies memoryManager.allocMap
      ensures Valid() && Used() == old(Used()) - {frame}
    {
      var _ := memoryManager.Free(frame, 1);
      assert Run(frame, 1) == {frame};
    }

    method SetNewPageMapIfNotPresent(t: nat, i: Index) returns (r: WithError<nat>)
      requires Valid() && t < |mem| && t in Used()
      modifies `mem, memoryManager.allocMap
      ensures cr3 == old(cr3)
      ensures Valid()
      ensures r.error == Success || r.error == NoEnoughMemory
      ensures r.error == NoEnoughMemory ==> Used() == old(Used()) && mem == old(mem)
      ensures r.error == Success <==> old(mem[t][i]).present || old(Free()) > 0
      ensures Free() == if old(mem[t][i]).present || old(Free()) == 0 then old(Free()) else old(Free()) - 1
      ensures old(mem[t][i]).present ==>
        r == WithError(old(mem[t][i]).addr, Success) && Used() == old(Used()) && mem == old(mem)
      ensures !old(mem[t][i]).present && r.error == Success ==>
        && r.value !in old(Used()) && r.value < |mem| && Used() == old(Used()) + {r.value}
        && mem == old(mem)[r.value := ZeroFrame()]
                          [t := old(mem)[t][i := old(mem[t][i]).(present := true, addr := r.value)]]
    {
      if mem[t][i].present {
        return WithError(mem[t][i].addr, Success);
      }
      r := NewPageMap();
      if r.error != Success {
        return;
      }
      SetEntry(t, i, mem[t][i].(addr := r.value));
      SetEntry(t, i, mem[t][i].(present := true));
      assert mem[t] == old(mem)[t][i := old(mem[t][i]).(present := true, addr := r.value)];
    }

    method SetEntry(t: nat, i: Index, e: Entry)
      requires Valid() && t < |mem|
      modifies `mem
      ensures cr3 == old(cr3)
      ensures Valid()
      ensures mem == old(mem)[t := old(mem)[t][i := e]]
    {
      mem := mem[t := mem[t][i := e]];
    }

    /** The stores a round of SetupPageMap makes into one slot: child, user bit, writable bit. */
    method LinkSlot(t: nat, i: Index, writable: bool) returns (child: WithError<nat>)
      requires Valid() && t < |mem| && t in Used()
      modifies `mem, memoryManager.allocMap
      ensures cr3 == old(cr3)
      ensures Valid()
      ensures child.error == Success || child.error == NoEnoughMemory
      ensures child.error == NoEnoughMemory ==> mem == old(mem) && Used() == old(Used())
      ensures child.error == Success <==> old(mem[t][i]).present || old(Free()) > 0
      ensures Free() == if old(mem[t][i]).present || old(Free()) == 0 then old(Free()) else old(Free()) - 1
      ensures child.error == Success ==> Linked(old(mem), old(Used()), mem, Used(), t, i, child.value, writable)
    {
      ghost var m1, u1 := mem, Used();
      child := SetNewPageMapIfNotPresent(t, i);
      if child.error != Success {
        return;
      }
      ghost var m2 := mem;
      SetEntry(t, i, mem[t][i].(user := true));
      ghost var m3 := mem;
      SetEntry(t, i, mem[t][i].(writable := writable));
      StoresLink(m1, u1, m2, m3, mem, Used(), t, i, child.value, writable);
    }

    /**
     Map num consecutive pages from addr0 on, as far as they fit under table t.  Ownership is followed in the
     shadow s0, which has the same tables, and present pages with the permission `flag`.  A memory in which the
     pages that are present have the permission asked for is its own shadow.
     */
    method SetupPageMap(t: nat, level: nat, addr0: LinearAddress, num0: nat, writable: bool, ghost lo: nat,
                        ghost base: set<nat>, ghost from: nat, ghost to: nat, ghost s0: Memory, ghost flag: bool)
      returns (r: WithError<nat>, ghost s: Memory)
      requires Valid() && 1 <= level <= 4 && lo <= Part(addr0, level)
      requires from == Low(addr0, level) && to == from + num0
      requires Alike(mem, s0) && Space(s0, Used(), t, level, lo, base)
      requires Compatible(s0, t, level, lo, from, to, flag)
      modifies `mem, memoryManager.allocMap
      ensures cr3 == old(cr3)
      ensures Valid()
      ensures Setup(s0, old(Used()), s, Used(), t, level, lo, base, from, to, flag)
      ensures Real(old(mem), s0, old(Used()), mem, s, t, level, lo, from, to, writable)
      ensures old(mem) == s0 && writable == flag ==> mem == s
      ensures r.error == Success || r.error == NoEnoughMemory
      ensures r.error == Success <==> Need(s0, t, level, addr0, num0) <= old(Free())
      ensures Free() == if r.error == Success then old(Free()) - Need(s0, t, level, addr0, num0) else 0
      ensures r.error == Success ==>
        r.value == Remaining(addr0, level, num0) && Served(mem, t, level, lo, from, to, writable)
      decreases level, 1
    {
      hide Setup, Space, Compatible, Served, Real, RealSlot, Alike, Span, Low, Need, SlotNeed;
      ghost var m0, u0, free := mem, Used(), Free();
      ghost var need := Need(s0, t, level, addr0, num0);
      var addr := addr0;
      var num: nat := num0;
      s := s0;
      SetupRefl(s0, u0, t, level, lo, base, from, to, flag);
      TableInUse(s0, u0, t, level, lo, base);
      AlikeLength(mem, s0);
      RealRefl(m0, s0, u0, t, level, lo, from, to, writable);
      LowBound(addr, level);
      ServedNone(mem, t, level, lo, from, writable);
      NeedNothing(s0, t, level, addr);
      ghost var mid := from;
      ghost var span := Span(level);
      ghost var left: nat := need;
      while num > 0
        invariant Valid() && num <= num0 && mid == to - num
        invariant Setup(s0, u0, s, Used(), t, level, lo, base, from, to, flag)
        invariant Real(m0, s0, u0, mem, s, t, level, lo, from, to, writable)
        invariant m0 == s0 && writable == flag ==> mem == s
        invariant Served(mem, t, level, lo, from, mid, writable)
        invariant num > 0 ==> lo <= Part(addr, level) && mid == Low(addr, level)
        invariant num == 0 ==> to <= span
        invariant need + Free() == free + left
        invariant num > 0 ==> left == Need(s, t, level, addr, num)
        invariant num == 0 ==> left == 0
        decreases ENTRIES - Part(addr, level)
      {
        ghost var m1, s1, u1 := mem, s, Used();
        ghost var i := Part(addr, level);
        ghost var base1 := NewBase(base, u0, u1, Own(s1, t, level, lo));
        RoundReady(s0, u0, s1, u1, t, level, lo, base, base1, from, mid, to, flag);
        RealParts(m0, s0, u0, m1, s1, t, level, lo, from, to, writable);
        StepEnds(addr, level, num);
        NeedSplit(s1, t, level, addr, num);
        var remain;
        ghost var end;
        remain, s, end := SetupSlot(t, level, addr, num, writable, lo, base1, mid, to, s1, flag);
        RoundDone(s0, u0, s1, u1, s, Used(), t, level, lo, base, base1, from, mid, to, flag);
        SetupOwns(s0, u0, s1, u1, t, level, lo, base, from, to, flag);
        RoundReal(m0, s0, u0, m1, s1, u1, mem, s, t, level, lo, i, from, mid, to, writable);
        if remain.error != Success {
          return remain, s;
        }
        SlotParts(m1, s1, u1, mem, s, t, level, lo, i, mid, to, writable);
        ServedKept(m1, mem, t, level, lo, mid, mid, to, writable, from);
        ServedJoin(mem, t, level, lo, from, mid, end, writable);
        num := remain.value;
        mid := end;
        if Part(addr, level) == ENTRIES - 1 {
          left := 0;
          if num > 0 {
            ServedBeyond(mem, t, level, lo, mid, to, writable);
            ServedJoin(mem, t, level, lo, from, mid, to, writable);
          } else {
            ServedTo(mem, t, level, lo, from, mid, to, writable);
          }
          mid := to;
          break;
        }
        addr := NextSlot(addr, level);
        left := Need(s1, t, level, addr, num);
        NextNeed(s1, u1, s, t, level, lo, base1, i, addr, num);
        NeedNothing(s, t, level, addr);
      }
      ServedTo(mem, t, level, lo, from, mid, to, writable);
      return WithError(num, Success), s;
    }

    /** One round of the loop in SetupPageMap: serve the slot of addr, and say how many pages are left. */
    method SetupSlot(t: nat, level: nat, addr: LinearAddress, num: nat, writable: bool, ghost lo: nat,
                     ghost base: set<nat>, ghost from: nat, ghost to: nat, ghost s1: Memory, ghost flag: bool)
      returns (r: WithError<nat>, ghost s: Memory, ghost end: nat)
      requires Valid() && 1 <= level <= 4 && lo <= Part(addr, level) && num > 0
      requires from == Low(addr, level) && to == from + num
      requires Alike(mem, s1) && Space(s1, Used(), t, level, lo, base)
      requires Compatible(s1, t, level, lo, from, to, flag)
      modifies `mem, memoryManager.allocMap
      ensures cr3 == old(cr3)
      ensures Valid()
      ensures Setup(s1, old(Used()), s, Used(), t, level, lo, base, from, to, flag)
      ensures RealSlot(old(mem), s1, old(Used()), mem, s, t, level, lo, Part(addr, level), from, to, writable)
      ensures SlotConfined(s1, s1, old(Used()), s, t, level, Part(addr, level))
      ensures old(mem) == s1 && writable == flag ==> mem == s
      ensures r.error == Success || r == WithError(num, NoEnoughMemory)
      ensures t < |s1|
      ensures r.error == Success <==> SlotNeed(s1, s1[t][Part(addr, level)], level, addr, num) <= old(Free())
      ensures Free() == if r.error == Success
                        then old(Free()) - SlotNeed(s1, s1[t][Part(addr, level)], level, addr, num) else 0
      ensures r.error == Success ==>
        && r.value == Step(addr, level, num) && end == to - r.value
        && Served(mem, t, level, lo, from, end, writable)
      decreases level, 0
    {
      hide *;
      var i := Part(addr, level);
      ghost var m1, u1 := mem, Used();
      ghost var childFrom, childTo := Low(addr, level - 1), Low(addr, level - 1) + num;
      SetupRefl(s1, u1, t, level, lo, base, from, to, flag);
      TableInUse(s1, u1, t, level, lo, base);
      AlikeLength(m1, s1);
      AlikeAt(m1, s1, t, i);
      RealSlotRefl(m1, s1, u1, t, level, lo, i, from, to, writable);
      NothingConfined(s1, u1, t, level, i);
      StepEnds(addr, level, num);
      SlotNeedIs(s1, s1[t][i], level, addr, num);
      s, end := s1, from;
      var child := LinkSlot(t, i, level > 1 || writable);
      if child.error != Success {
        return WithError(num, child.error), s, end;
      }
      ghost var m2, u2 := mem, Used();
      ghost var s2 := LinkIn(s1, t, i, child.value, level > 1 || flag);
      RoundLink(m1, s1, u1, m2, s2, u2, t, level, lo, base, addr, i, child.value, from, to, writable, flag);
      s := s2;
      if level == 1 {
        end := from + 1;
        ServedSlot(mem, t, level, lo, addr, num, i, child.value, from, end, childFrom, childTo, writable);
        return WithError(num - 1, Success), s, end;
      }
      ghost var base2 := NewBase(base, u1, u2, Own(s2, t, level, lo));
      TableReady(s1, u1, s2, u2, t, level, lo, base, base2, addr, i, child.value, flag, from, to, childFrom, childTo);
      LinkedNeed(s1, u1, s2, u2, t, level, i, child.value, addr, num);
      SlotParts(m1, s1, u1, m2, s2, t, level, lo, i, from, to, writable);
      r, s := SetupPageMap(child.value, level - 1, addr, num, writable, 0, base2, childFrom, childTo, s2, flag);
      TableDone(s1, u1, s2, u2, s, Used(), t, level, lo, base, base2, addr, i, child.value,
                from, to, childFrom, childTo, flag);
      RoundChild(m1, s1, u1, m2, s2, u2, mem, s, Used(), t, level, lo, base, base2, i, child.value,
                 childFrom, childTo, from, to, writable, flag);
      if r.error != Success {
        return WithError(num, r.error), s, end;
      }
      end := to - r.value;
      ServedSlot(mem, t, level, lo, addr, num, i, child.value, from, end, childFrom, childTo, writable);
    }

    /**
     Set up pages of the current address space; the kernel half of its table is not touched.  Whatever pages
     are there already, those of the run end up with the permission asked for.  Ownership stays in order, and
     the effect is that of Setup, if the present ones had it, and a run that is served leaves it in order only then.
     */
    method SetupPageMaps(addr: LinearAddress, num: nat, writable: bool, ghost base: set<nat>) returns (error: Error)
      requires Valid() && KERNEL_ENTRIES <= addr.pml4
      requires InShape(mem, Used(), cr3, 4, KERNEL_ENTRIES)
      modifies `mem, memoryManager.allocMap
      ensures cr3 == old(cr3)
      ensures Valid() && InShape(mem, Used(), cr3, 4, KERNEL_ENTRIES)
      ensures MapsPages(old(mem), old(Used()), mem, Used(), cr3, base, Low(addr, 4), Low(addr, 4) + num, writable,
                        error == Success)
      ensures error == Success || error == NoEnoughMemory
      ensures error == Success <==> Need(old(mem), cr3, 4, addr, num) <= old(Free())
      ensures Free() == if error == Success then old(Free()) - Need(old(mem), cr3, 4, addr, num) else 0
    {
      hide Need, Setup, Compatible, Space, Alike, Real, MapsPages, ReadOnly, Low;
      ghost var from, to := Low(addr, 4), Low(addr, 4) + num;
      ghost var m0, u0 := mem, Used();
      ghost var s0, b, flag := mem, base, writable;
      if && Space(mem, Used(), cr3, 4, KERNEL_ENTRIES, base)
         && Compatible(mem, cr3, 4, KERNEL_ENTRIES, from, to, writable)
      {
        AlikeRefl(mem);
      } else {
        s0, b :| ShadowOf(mem, Used(), cr3, 4, KERNEL_ENTRIES, s0, b);
        flag := false;
        ReadOnlyCompatible(s0, cr3, 4, KERNEL_ENTRIES, from, to);
      }
      NeedAlike(mem, s0, cr3, 4, addr, num);
      var r;
      ghost var s;
      r, s := SetupPageMap(cr3, 4, addr, num, writable, KERNEL_ENTRIES, b, from, to, s0, flag);
      RealParts(m0, s0, u0, mem, s, cr3, 4, KERNEL_ENTRIES, from, to, writable);
      ShapeAfter(mem, s0, u0, s, Used(), cr3, 4, KERNEL_ENTRIES, b, from, to, flag);
      MapsPagesAre(m0, s0, u0, mem, s, Used(), cr3, base, b, from, to, writable, flag, r.error == Success);
      error := r.error;
    }

    /** Point the leaf entry of a page at content, and make it writable. */
    method SetPageContent(t: nat, level: nat, addr: LinearAddress, content: nat, ghost lo: nat, ghost base: set<nat>)
      requires Valid() && Replaceable(mem, Used(), t, level, lo, base, addr, content)
      modifies `mem
      ensures cr3 == old(cr3)
      ensures Valid()
      ensures Replaced(old(mem), Used(), mem, t, level, lo, base, addr, content)
      decreases level
    {
      var i := Part(addr, level);
      ghost var m0 := mem;
      if level == 1 {
        SetEntry(t, i, mem[t][i].(addr := content));
        SetEntry(t, i, mem[t][i].(writable := true));
        assert m0[t][i := m0[t][i].(addr := content)][i := m0[t][i].(addr := content, writable := true)]
            == m0[t][i := m0[t][i].(addr := content, writable := true)];
        ReplaceLeaf(m0, Used(), mem, t, lo, base, addr, content);
        return;
      }
      ReplaceInChild(m0, Used(), t, level, lo, base, addr, content);
      var child := mem[t][i].addr;
      SetPageContent(child, level - 1, addr, content, 0, base);
      ReplaceDescend(m0, Used(), mem, t, level, lo, base, addr, i, child, content);
    }

    /** Give the faulting page a private copy of what it shows now. */
    method CopyOnePage(causal: LinearAddress, ghost base: set<nat>) returns (error: Error)
      requires Valid() && Space(mem, Used(), cr3, 4, KERNEL_ENTRIES, base) && KERNEL_ENTRIES <= causal.pml4
      requires Walk(mem, cr3, 4, causal).present && !Walk(mem, cr3, 4, causal).writable
      modifies `mem, memoryManager.allocMap
      ensures cr3 == old(cr3)
      ensures Valid() && (error == Success || error == NoEnoughMemory)
      ensures error == Success <==> old(Free()) > 0
      ensures Free() == if error == Success then old(Free()) - 1 else 0
      ensures error != Success ==> mem == old(mem) && Used() == old(Used())
      ensures error == Success ==> exists p ::
        && PrivateCopy(old(mem), old(Used()), mem, Used(), cr3, base, causal, p)
    {
      ghost var m0, u0 := mem, Used();
      var p := NewPageMap();
      if p.error != Success {
        return p.error;
      }
      FillCopy(p.value, causal, base, m0, u0);
      return Success;
    }

    /** The copying half of CopyOnePage: fill the new frame p and hang it into the tables. */
    method FillCopy(p: nat, causal: LinearAddress, ghost base: set<nat>, ghost m0: Memory, ghost u0: set<nat>)
      requires Valid() && Space(m0, u0, cr3, 4, KERNEL_ENTRIES, base) && KERNEL_ENTRIES <= causal.pml4
      requires Walk(m0, cr3, 4, causal).present && !Walk(m0, cr3, 4, causal).writable
      requires p !in u0 && p < |m0| && Used() == u0 + {p} && mem == m0[p := ZeroFrame()]
      modifies `mem
      ensures cr3 == old(cr3)
      ensures Valid() && PrivateCopy(m0, u0, mem, Used(), cr3, base, causal, p)
    {
      hide Space, Replaceable, Replaced, PrivateCopy;
      CopySource(m0, u0, mem, cr3, base, causal, p);
      var shown := Walk(mem, cr3, 4, causal).addr;
      mem := mem[p := mem[shown]];
      ghost var m2 := mem;
      CopyReady(m0, u0, m2, cr3, base, causal, p, shown);
      SetPageContent(cr3, 4, causal, p, KERNEL_ENTRIES, base);
      PrivateCopyDone(m0, u0, m2, mem, Used(), cr3, base, causal, p);
    }

    /** Clear slots Part(addr).. of t and everything below, freeing each owned frame once. */
    method CleanPageMap(t: nat, level: nat, addr: LinearAddress, ghost lo: nat, ghost base: set<nat>)
      requires Valid() && 1 <= level <= 4 && lo <= Part(addr, level)
      requires Space(mem, Used(), t, level, lo, base)
      modifies `mem, memoryManager.allocMap
      ensures cr3 == old(cr3)
      ensures Valid()
      ensures Cleaned(old(mem), old(Used()), mem, Used(), t, level, addr, ENTRIES)
      decreases level, 1
    {
      ghost var m0, u0 := mem, Used();
      var i: nat := Part(addr, level);
      CleanedNothing(m0, u0, t, level, addr);
      while i < ENTRIES
        invariant Valid() && Part(addr, level) <= i <= ENTRIES
        invariant Cleaned(m0, u0, mem, Used(), t, level, addr, i)
      {
        ghost var m1, u1 := mem, Used();
        if mem[t][i].present {
          CleanSlot(t, level, addr, i, lo, base, m0, u0);
        } else {
          CleanedSkip(m0, u0, m1, u1, t, level, addr, i);
        }
        i := i + 1;
      }
    }

    /** One round of the loop in CleanPageMap, for a present entry. */
    method CleanSlot(t: nat, level: nat, addr: LinearAddress, i: Index, ghost lo: nat, ghost base: set<nat>,
                     ghost m0: Memory, ghost u0: set<nat>)
      requires Valid() && 1 <= level <= 4 && lo <= Part(addr, level) <= i
      requires Space(m0, u0, t, level, lo, base)
      requires Cleaned(m0, u0, mem, Used(), t, level, addr, i) && mem[t][i].present
      modifies `mem, memoryManager.allocMap
      ensures cr3 == old(cr3)
      ensures Valid()
      ensures Cleaned(m0, u0, mem, Used(), t, level, addr, i + 1)
      decreases level, 0
    {
      ghost var m1, u1 := mem, Used();
      SlotIntact(m0, u0, m1, u1, t, level, lo, base, addr, i);
      var entry := mem[t][i];
      if level > 1 {
        CleanPageMap(entry.addr, level - 1, addr, 0, base);
        CleanedChild(m1, u1, mem, Used(), entry.addr, level - 1, addr);
      }
      ghost var m2, u2 := mem, Used();
      assert m2[t] == m1[t];
      if entry.writable {
        FreeFrame(entry.addr);
      }
      SetEntry(t, i, ZERO);
      CleanedStep(m0, u0, m1, u1, m2, u2, mem, Used(), t, level, addr, i, entry.addr);
    }

    method CleanPageMaps(addr: LinearAddress, ghost base: set<nat>)
      requires Valid() && KERNEL_ENTRIES <= addr.pml4
      requires Space(mem, Used(), cr3, 4, KERNEL_ENTRIES, base)
      modifies `mem, memoryManager.allocMap
      ensures cr3 == old(cr3)
      ensures Valid()
      ensures Cleaned(old(mem), old(Used()), mem, Used(), cr3, 4, addr, ENTRIES)
    {
      CleanPageMap(cr3, 4, addr, KERNEL_ENTRIES, base);
    }

    /**
     Share an image: new tables down the first present entries, read-only leaves.  The loop returns
     after the first present entry of an upper table, as the source does.
     */
    method CopyPageMaps(dest: nat, src: nat, part: nat, start: nat, ghost base: set<nat>) returns (error: Error)
      requires Valid() && 1 <= part <= 4 && start <= ENTRIES
      requires Space(mem, Used(), dest, part, start, base) && EmptyFrom(mem, dest, start)
      requires Image(mem, src, part, start, base) && CanCopy(mem, src, part, start)
      modifies `mem, memoryManager.allocMap
      ensures cr3 == old(cr3)
      ensures Valid() && (error == Success || error == NoEnoughMemory)
      ensures error == Success <==> part - 1 <= old(Free())
      ensures Free() == if error == Success then old(Free()) - (part - 1) else 0
      ensures CopyGrows(old(mem), old(Used()), mem, Used(), dest, part, start, base)
      ensures error == Success ==>
        Copied(old(mem), mem, dest, src, part, start) && PathTables(old(mem), mem, dest, src, part, start)
      decreases part
    {
      ghost var m0, u0 := mem, Used();
      if part == 1 {
        CopyLeaves(dest, src, start);
        LeavesCopied(m0, u0, mem, dest, src, start, base);
        return Success;
      }
      var i := start;
      while i < ENTRIES && !mem[src][i].present
        invariant start <= i <= ENTRIES
        invariant forall j: Index :: start <= j < i ==> !mem[src][j].present
      {
        i := i + 1;
      }
      if i < ENTRIES {
        FirstPresentUnique(mem[src], start, i);
      } else {
        assert false;
      }
      CopyNothing(m0, u0, dest, part, start, base);
      var table := NewPageMap();
      if table.error != Success {
        return table.error;
      }
      error := CopyBelow(dest, src, part, start, i, table.value, base, m0, u0);
    }

    /** The rest of CopyPageMaps above level 1, once the new table is there. */
    method CopyBelow(dest: nat, src: nat, part: nat, start: nat, i: Index, table: nat, ghost base: set<nat>,
                     ghost m0: Memory, ghost u0: set<nat>) returns (error: Error)
      requires Valid() && 1 < part <= 4 && start <= i
      requires Space(m0, u0, dest, part, start, base) && EmptyFrom(m0, dest, start)
      requires Image(m0, src, part, start, base) && CanCopy(m0, src, part, start)
      requires m0[src][i].present && FirstPresent(m0[src], start) == i
      requires table !in u0 && table < |m0| && Used() == u0 + {table} && mem == m0[table := ZeroFrame()]
      modifies `mem, memoryManager.allocMap
      ensures cr3 == old(cr3)
      ensures Valid() && (error == Success || error == NoEnoughMemory)
      ensures error == Success <==> part - 2 <= old(Free())
      ensures Free() == if error == Success then old(Free()) - (part - 2) else 0
      ensures CopyGrows(m0, u0, mem, Used(), dest, part, start, base)
      ensures error == Success ==>
        Copied(m0, mem, dest, src, part, start) && PathTables(m0, mem, dest, src, part, start)
      decreases part, 0
    {
      hide Space, Image, CanCopy, CopyGrows, Copied, PathTables, EmptyFrom, FirstPresent;
      InMemory(m0, u0, dest, src, part, start, base);
      ghost var entry := m0[src][i].(addr := table);
      CopyDistinct(m0, u0, dest, src, part, start, base);
      SetEntry(dest, i, mem[src][i]);
      SetEntry(dest, i, mem[dest][i].(addr := table));
      assert m0[dest][i := m0[src][i]][i := entry] == m0[dest][i := entry];
      ghost var m1, u1 := mem, Used();
      CopyPrepared(m0, u0, m1, u1, dest, src, part, start, base, i, table);
      var child := mem[src][i].addr;
      error := CopyPageMaps(table, child, part - 1, 0, base);
      CopyFinished(m0, u0, m1, u1, mem, Used(), dest, src, part, start, base, i, table);
    }

    method CopyLeaves(dest: nat, src: nat, start: nat)
      requires Valid() && dest < |mem| && src < |mem| && dest != src && start <= ENTRIES
      modifies `mem
      ensures cr3 == old(cr3)
      ensures Valid() && |mem| == |old(mem)|
      ensures forall f :: 0 <= f < |mem| && f != dest ==> mem[f] == old(mem)[f]
      ensures forall i: Index ::
        mem[dest][i] == if start <= i && old(mem)[src][i].present then old(mem)[src][i].(writable := false)
            else old(mem)[dest][i]
    {
      var i := start;
      while i < ENTRIES
        invariant Valid() && start <= i <= ENTRIES && |mem| == |old(mem)|
        invariant forall f :: 0 <= f < |mem| && f != dest ==> mem[f] == old(mem)[f]
        invariant forall j: Index ::
          mem[dest][j] == if start <= j < i && old(mem)[src][j].present then old(mem)[src][j].(writable := false)
              else old(mem)[dest][j]
      {
        if mem[src][i].present {
          SetEntry(dest, i, mem[src][i]);
          SetEntry(dest, i, mem[dest][i].(writable := false));
        }
        i := i + 1;
      }
    }
  }
}
