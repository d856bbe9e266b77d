/** What mapping a run of consecutive pages means, and how such effects compose. */
module PageMapping {
  import opened PageTable

  ghost predicate InRange(b: LinearAddress, level: nat, from: nat, to: nat) {
    from <= Low(b, level) < to
  }

  /** One page: present pages are untouched; a page that appears is in range, fresh and zeroed. */
  ghost predicate PageEffect(mem: Memory, used: set<nat>, mem': Memory, used': set<nat>,
                             t: nat, level: nat, b: LinearAddress, inRange: bool, writable: bool)
  {
    var w' := Walk(mem', t, level, b);
    if Walk(mem, t, level, b).present then SamePageThrough(mem, mem', t, level, b)
    else w'.present ==>
      && inRange && w'.user && w'.writable == writable
      && w'.addr in used' - used && w'.addr < |mem'| && mem'[w'.addr] == ZeroFrame()
  }

  ghost predicate Mapped(mem: Memory, used: set<nat>, mem': Memory, used': set<nat>,
                         t: nat, level: nat, lo: nat, from: nat, to: nat, writable: bool)
  {
    forall b: LinearAddress :: lo <= Part(b, level) ==>
      PageEffect(mem, used, mem', used', t, level, b, InRange(b, level, from, to), writable)
  }

  ghost predicate AllPresent(mem: Memory, t: nat, level: nat, lo: nat, from: nat, to: nat) {
    forall b: LinearAddress :: lo <= Part(b, level) && InRange(b, level, from, to) ==>
      Walk(mem, t, level, b).present
  }

  /** Different pages do not share a frame that was free in the earlier state. */
  ghost predicate FreshDistinct(mem: Memory, used: set<nat>, t: nat, level: nat, lo: nat) {
    forall b: LinearAddress, c: LinearAddress ::
      && lo <= Part(b, level) && lo <= Part(c, level) && Low(b, level) != Low(c, level)
      && Walk(mem, t, level, b).present && Walk(mem, t, level, b).addr !in used
      && Walk(mem, t, level, c).present
      ==> Walk(mem, t, level, b).addr != Walk(mem, t, level, c).addr
  }

  /** Pages of the range that are already present carry the requested write permission. */
  ghost predicate Compatible(mem: Memory, t: nat, level: nat, lo: nat, from: nat, to: nat, writable: bool) {
    forall b: LinearAddress :: lo <= Part(b, level) && InRange(b, level, from, to) ==>
      var w := Walk(mem, t, level, b);
      w.present ==> w.writable == writable
  }

  /** The whole effect of mapping pages [from, to) of the tree at t. */
  ghost predicate Setup(mem: Memory, used: set<nat>, mem': Memory, used': set<nat>,
                        t: nat, level: nat, lo: nat, base: set<nat>, from: nat, to: nat, writable: bool)
  {
    && Grows(mem, used, mem', used', t, level, lo, base)
    && (writable ==> Own(mem', t, level, lo) == Own(mem, t, level, lo) + (used' - used))
    && Mapped(mem, used, mem', used', t, level, lo, from, to, writable)
    && FreshDistinct(mem', used, t, level, lo)
  }

  lemma WalkUsed(mem: Memory, used: set<nat>, t: nat, level: nat, lo: nat, base: set<nat>, b: LinearAddress)
    requires Space(mem, used, t, level, lo, base) && lo <= Part(b, level)
    requires Walk(mem, t, level, b).present
    ensures Walk(mem, t, level, b).addr in used
    ensures Walk(mem, t, level, b).addr < |mem|
  {
    WalkReaches(mem, t, level, lo, base, b);
    SlotInOwn(mem, t, level, lo, Part(b, level));
  }

  lemma SetupRefl(mem: Memory, used: set<nat>, t: nat, level: nat, lo: nat, base: set<nat>,
                  from: nat, to: nat, writable: bool)
    requires Space(mem, used, t, level, lo, base)
    ensures Setup(mem, used, mem, used, t, level, lo, base, from, to, writable)
  {
    GrowsRefl(mem, used, t, level, lo, base);
    forall b: LinearAddress | lo <= Part(b, level) && Walk(mem, t, level, b).present
      ensures Walk(mem, t, level, b).addr < |mem|
      ensures Walk(mem, t, level, b).addr in used
    {
      WalkUsed(mem, used, t, level, lo, base, b);
    }
  }

  lemma SetupTrans(m0: Memory, u0: set<nat>, m1: Memory, u1: set<nat>, m2: Memory, u2: set<nat>,
                   t: nat, level: nat, lo: nat, base: set<nat>, from: nat, to: nat, writable: bool)
    requires Space(m0, u0, t, level, lo, base)
    requires Setup(m0, u0, m1, u1, t, level, lo, base, from, to, writable)
    requires Setup(m1, u1, m2, u2, t, level, lo, NewBase(base, u0, u1, Own(m1, t, level, lo)), from, to, writable)
    ensures Setup(m0, u0, m2, u2, t, level, lo, base, from, to, writable)
  {
    GrowsTrans(m0, u0, m1, u1, m2, u2, t, level, lo, base);
    forall b: LinearAddress | lo <= Part(b, level)
      ensures PageEffect(m0, u0, m2, u2, t, level, b, InRange(b, level, from, to), writable)
    {
      assert PageEffect(m0, u0, m1, u1, t, level, b, InRange(b, level, from, to), writable);
      assert PageEffect(m1, u1, m2, u2, t, level, b, InRange(b, level, from, to), writable);
    }
    forall b: LinearAddress, c: LinearAddress |
      && lo <= Part(b, level) && lo <= Part(c, level) && Low(b, level) != Low(c, level)
      && Walk(m2, t, level, b).present && Walk(m2, t, level, b).addr !in u0
      && Walk(m2, t, level, c).present
      ensures Walk(m2, t, level, b).addr != Walk(m2, t, level, c).addr
    {
      assert PageEffect(m1, u1, m2, u2, t, level, b, InRange(b, level, from, to), writable);
      assert PageEffect(m1, u1, m2, u2, t, level, c, InRange(c, level, from, to), writable);
      var base1 := NewBase(base, u0, u1, Own(m1, t, level, lo));
      if Walk(m1, t, level, b).present {
        WalkUsed(m1, u1, t, level, lo, base1, b);
      }
      if Walk(m1, t, level, c).present {
        WalkUsed(m1, u1, t, level, lo, base1, c);
      }
    }
  }

  lemma SetupWider(mem: Memory, used: set<nat>, mem': Memory, used': set<nat>, t: nat, level: nat, lo: nat,
                   base: set<nat>, from: nat, to: nat, writable: bool, from': nat, to': nat)
    requires Setup(mem, used, mem', used', t, level, lo, base, from, to, writable)
    requires from' <= from && to <= to'
    ensures Setup(mem, used, mem', used', t, level, lo, base, from', to', writable)
  {
    forall b: LinearAddress | lo <= Part(b, level)
      ensures PageEffect(mem, used, mem', used', t, level, b, InRange(b, level, from', to'), writable)
    {
      assert PageEffect(mem, used, mem', used', t, level, b, InRange(b, level, from, to), writable);
    }
  }

  lemma DescendMapped(mem: Memory, used: set<nat>, mem': Memory, used': set<nat>, t: nat, level: nat, lo: nat,
                      i: Index, f: nat, childFrom: nat, childTo: nat, from: nat, to: nat, writable: bool)
    requires t < |mem| == |mem'| && level > 1 && mem'[t] == mem[t] && mem[t][i].present && mem[t][i].addr == f
    requires Mapped(mem, used, mem', used', f, level - 1, 0, childFrom, childTo, writable)
    requires OutsideSame(mem, mem', t, level, lo, i)
    requires from == SlotStart(i, level) + childFrom && to == SlotStart(i, level) + childTo
    ensures Mapped(mem, used, mem', used', t, level, lo, from, to, writable)
  {
    forall b: LinearAddress | lo <= Part(b, level)
      ensures PageEffect(mem, used, mem', used', t, level, b, InRange(b, level, from, to), writable)
    {
      if Part(b, level) == i {
        assert PageEffect(mem, used, mem', used', f, level - 1, b, InRange(b, level - 1, childFrom, childTo), writable);
      } else {
        assert SamePageThrough(mem, mem', t, level, b);
      }
    }
  }

  /** Pages outside slot i of t reach frames that were in use before. */
  lemma OutsideUsed(mem: Memory, used: set<nat>, mem': Memory, t: nat, level: nat, lo: nat, base: set<nat>,
                    i: Index, b: LinearAddress)
    requires Space(mem, used, t, level, lo, base) && lo <= Part(b, level) && Part(b, level) != i
    requires OutsideSame(mem, mem', t, level, lo, i) && Walk(mem', t, level, b).present
    ensures Walk(mem', t, level, b).addr in used
  {
    assert SamePageThrough(mem, mem', t, level, b);
    WalkUsed(mem, used, t, level, lo, base, b);
  }

  lemma DescendFresh(mem: Memory, used: set<nat>, mem': Memory, t: nat, level: nat, lo: nat, base: set<nat>, i: Index)
    requires Space(mem, used, t, level, lo, base) && |mem'| == |mem|
    requires level > 1 && lo <= i && mem[t][i].present && mem'[t] == mem[t]
    requires FreshDistinct(mem', used, mem[t][i].addr, level - 1, 0)
    requires OutsideSame(mem, mem', t, level, lo, i)
    ensures FreshDistinct(mem', used, t, level, lo)
  {
    forall b: LinearAddress, c: LinearAddress |
      && lo <= Part(b, level) && lo <= Part(c, level) && Low(b, level) != Low(c, level)
      && Walk(mem', t, level, b).present && Walk(mem', t, level, b).addr !in used
      && Walk(mem', t, level, c).present
      ensures Walk(mem', t, level, b).addr != Walk(mem', t, level, c).addr
    {
      if Part(b, level) != i {
        OutsideUsed(mem, used, mem', t, level, lo, base, i, b);
      }
      if Part(c, level) != i {
        OutsideUsed(mem, used, mem', t, level, lo, base, i, c);
      }
    }
  }

  /** Mapping inside the table f of slot i is mapping the shifted range of the table above. */
  lemma SetupDescend(mem: Memory, used: set<nat>, mem': Memory, used': set<nat>, t: nat, level: nat, lo: nat,
                     base: set<nat>, base': set<nat>, i: Index, f: nat,
                     childFrom: nat, childTo: nat, from: nat, to: nat, writable: bool)
    requires Space(mem, used, t, level, lo, base)
    requires level > 1 && lo <= i && mem[t][i].present && mem[t][i].addr == f
    requires Setup(mem, used, mem', used', f, level - 1, 0, base, childFrom, childTo, writable)
    requires from == SlotStart(i, level) + childFrom && to == SlotStart(i, level) + childTo
    requires base' == NewBase(base, used, used', Own(mem', f, level - 1, 0))
    ensures Setup(mem, used, mem', used', t, level, lo, base, from, to, writable)
    ensures mem'[t] == mem[t]
    ensures base' == NewBase(base, used, used', Own(mem', t, level, lo))
  {
    Descend(mem, used, mem', used', t, level, lo, base, i);
    ChildSpace(mem, used, t, level, lo, base, i);
    DescendFresh(mem, used, mem', t, level, lo, base, i);
    DescendMapped(mem, used, mem', used', t, level, lo, i, f, childFrom, childTo, from, to, writable);
  }

  ghost predicate NoPages(mem: Memory, t: nat, level: nat) {
    forall b: LinearAddress :: !Walk(mem, t, level, b).present
  }

  lemma ZeroFrameTree(mem: Memory, f: nat, level: nat, base: set<nat>)
    requires f < |mem| && mem[f] == ZeroFrame() && 1 <= level
    ensures Tree(mem, f, level, 0, base)
    ensures Own(mem, f, level, 0) == {}
    ensures NoPages(mem, f, level)
  {
    assert forall i: Index :: mem[f][i] == ZERO;
  }

  lemma LinkGrows(mem: Memory, used: set<nat>, mem': Memory, t: nat, level: nat, lo: nat, base: set<nat>,
                  i: Index, f: nat, e: Entry)
    requires Space(mem, used, t, level, lo, base) && lo <= i && !mem[t][i].present
    requires f !in used && f < |mem|
    requires e.present && e.user && e.addr == f && (level > 1 ==> e.writable)
    requires mem' == mem[f := ZeroFrame()][t := mem[t][i := e]]
    ensures Grows(mem, used, mem', used + {f}, t, level, lo, base)
    ensures Own(mem', t, level, lo) == Own(mem, t, level, lo) + (if e.writable then {f} else {})
    ensures OutsideSame(mem, mem', t, level, lo, i)
    ensures mem'[f] == ZeroFrame() && mem'[t][i] == e
    ensures level > 1 ==> NoPages(mem', f, level - 1)
  {
    assert mem'[f] == ZeroFrame();
    if level > 1 {
      ZeroFrameTree(mem', f, level - 1, NewBase(base, used, used + {f}, {f}));
    }
    ChangeSlot(mem, used, mem', used + {f}, t, level, lo, base, i);
  }

  /** A frame that was free becomes the target of an absent entry: a new table, or a new page. */
  lemma SetupLink(mem: Memory, used: set<nat>, mem': Memory, t: nat, level: nat, lo: nat, base: set<nat>,
                  i: Index, f: nat, e: Entry, writable: bool)
    requires Space(mem, used, t, level, lo, base) && lo <= i && !mem[t][i].present
    requires f !in used && f < |mem|
    requires e.present && e.user && e.addr == f && e.writable == (level > 1 || writable)
    requires mem' == mem[f := ZeroFrame()][t := mem[t][i := e]]
    ensures Setup(mem, used, mem', used + {f}, t, level, lo, base,
                  SlotStart(i, level), SlotStart(i, level) + (if level > 1 then 0 else 1), writable)
  {
    LinkGrows(mem, used, mem', t, level, lo, base, i, f, e);
    var from := SlotStart(i, level);
    var to := from + (if level > 1 then 0 else 1);
    LinkMapped(mem, used, mem', t, level, lo, base, i, f, e, writable, from, to);
    LinkFresh(mem, used, mem', t, level, lo, base, i, f, e, writable);
  }

  lemma LinkMapped(mem: Memory, used: set<nat>, mem': Memory, t: nat, level: nat, lo: nat, base: set<nat>,
                   i: Index, f: nat, e: Entry, writable: bool, from: nat, to: nat)
    requires Space(mem, used, t, level, lo, base) && lo <= i && !mem[t][i].present
    requires f !in used && f < |mem| == |mem'|
    requires e.present && e.user && e.addr == f && e.writable == (level > 1 || writable)
    requires OutsideSame(mem, mem', t, level, lo, i) && mem'[f] == ZeroFrame() && mem'[t][i] == e
    requires level > 1 ==> NoPages(mem', f, level - 1)
    requires from == SlotStart(i, level) && to == from + (if level > 1 then 0 else 1)
    ensures Mapped(mem, used, mem', used + {f}, t, level, lo, from, to, writable)
  {
    forall b: LinearAddress | lo <= Part(b, level)
      ensures PageEffect(mem, used, mem', used + {f}, t, level, b, InRange(b, level, from, to), writable)
    {
      LinkPage(mem, used, mem', t, level, lo, base, i, f, e, writable, b);
    }
  }

  lemma LinkFresh(mem: Memory, used: set<nat>, mem': Memory, t: nat, level: nat, lo: nat, base: set<nat>,
                  i: Index, f: nat, e: Entry, writable: bool)
    requires Space(mem, used, t, level, lo, base) && lo <= i && !mem[t][i].present
    requires f !in used && f < |mem| == |mem'|
    requires e.present && e.user && e.addr == f && e.writable == (level > 1 || writable)
    requires OutsideSame(mem, mem', t, level, lo, i) && mem'[f] == ZeroFrame() && mem'[t][i] == e
    requires level > 1 ==> NoPages(mem', f, level - 1)
    ensures FreshDistinct(mem', used, t, level, lo)
  {
    forall b: LinearAddress | lo <= Part(b, level) && Walk(mem', t, level, b).present
      ensures Walk(mem', t, level, b).addr in used || (level == 1 && Low(b, level) == i)
    {
      LinkPage(mem, used, mem', t, level, lo, base, i, f, e, writable, b);
    }
  }

  lemma LinkPage(mem: Memory, used: set<nat>, mem': Memory, t: nat, level: nat, lo: nat, base: set<nat>,
                 i: Index, f: nat, e: Entry, writable: bool, b: LinearAddress)
    requires Space(mem, used, t, level, lo, base) && lo <= i && !mem[t][i].present && lo <= Part(b, level)
    requires f !in used && f < |mem| == |mem'|
    requires e.present && e.user && e.addr == f && e.writable == (level > 1 || writable)
    requires OutsideSame(mem, mem', t, level, lo, i) && mem'[f] == ZeroFrame() && mem'[t][i] == e
    requires level > 1 ==> NoPages(mem', f, level - 1)
    ensures var from := SlotStart(i, level);
            PageEffect(mem, used, mem', used + {f}, t, level, b,
                       InRange(b, level, from, from + (if level > 1 then 0 else 1)), writable)
    ensures Walk(mem', t, level, b).present ==>
      Walk(mem', t, level, b).addr in used || (level == 1 && Low(b, level) == i)
  {
    if Part(b, level) != i {
      assert SamePageThrough(mem, mem', t, level, b);
      if Walk(mem', t, level, b).present {
        OutsideUsed(mem, used, mem', t, level, lo, base, i, b);
      }
    } else if level == 1 {
      SlotStartTimes(i, 1);
      assert Low(b, 1) == SlotStart(i, 1) + Low(b, 0) == i;
    }
  }
}
