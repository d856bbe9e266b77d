/** Mapping the argument page and the stack pages of a new application. */
module StackSetup {
  import opened Errors
  import opened PageTable
  import opened PageMapping
  import opened SetupProof
  import opened Permission
  import opened Shadow
  import opened FrameCount
  import opened Paging
  import opened AddressSpace
  import opened Application

  lemma AbsentCompatible(mem: Memory, r: nat, from: nat, to: nat)
    requires AbsentIn(mem, r, from, to)
    ensures Compatible(mem, r, TOP, KERNEL_ENTRIES, from, to, true)
  {
  }

  lemma AbsentPart(mem: Memory, r: nat, from: nat, mid: nat, to: nat)
    requires AbsentIn(mem, r, from, to) && from <= mid <= to
    ensures AbsentIn(mem, r, mid, to) && AbsentIn(mem, r, from, mid)
  {
    forall b: LinearAddress | KERNEL_ENTRIES <= Part(b, TOP) && (InRange(b, TOP, mid, to) || InRange(b, TOP, from, mid))
      ensures !Walk(mem, r, TOP, b).present
    {
      assert InRange(b, TOP, from, to);
    }
  }

  /** Pages that were read-only are absent exactly if they have the permission of pages about to be mapped writable. */
  lemma CompatibleAbsent(mem: Memory, r: nat, from: nat, to: nat)
    requires Compatible(mem, r, TOP, KERNEL_ENTRIES, from, to, true) && ReadOnly(mem, r, TOP, KERNEL_ENTRIES)
    ensures AbsentIn(mem, r, from, to)
  {
  }

  /** A writable run owns all it took. */
  lemma OwnsAll(m0: Memory, u0: set<nat>, m1: Memory, u1: set<nat>, r: nat, base: set<nat>, from: nat, to: nat)
    requires Setup(m0, u0, m1, u1, r, TOP, KERNEL_ENTRIES, base, from, to, true)
    ensures NewBase(base, u0, u1, Own(m1, r, TOP, KERNEL_ENTRIES)) == base
    ensures Space(m1, u1, r, TOP, KERNEL_ENTRIES, base) && |m1| == |m0|
  {
    assert NewBase(base, u0, u1, Own(m1, r, TOP, KERNEL_ENTRIES)) == base;
  }

  lemma AbsentKept(m0: Memory, m1: Memory, r: nat, from: nat, mid: nat, to: nat)
    requires AbsentIn(m0, r, from, mid) && Remapped(m0, m1, r, TOP, KERNEL_ENTRIES, mid, to, true)
    ensures AbsentIn(m1, r, from, mid)
  {
    forall b: LinearAddress | KERNEL_ENTRIES <= Part(b, TOP) && InRange(b, TOP, from, mid)
      ensures !Walk(m1, r, TOP, b).present
    {
      assert RemapEffect(m0, m1, r, TOP, b, InRange(b, TOP, mid, to), true);
    }
  }

  /** The two runs, one above the other, in order: one run. */
  lemma TwoRuns(m0: Memory, u0: set<nat>, m1: Memory, u1: set<nat>, m2: Memory, u2: set<nat>, r: nat, base: set<nat>,
                from: nat, mid: nat, to: nat)
    requires Space(m0, u0, r, TOP, KERNEL_ENTRIES, base) && from <= mid <= to
    requires Setup(m0, u0, m1, u1, r, TOP, KERNEL_ENTRIES, base, mid, to, true)
    requires Setup(m1, u1, m2, u2, r, TOP, KERNEL_ENTRIES, base, from, mid, true)
    ensures Setup(m0, u0, m2, u2, r, TOP, KERNEL_ENTRIES, base, from, to, true)
  {
    hide Setup, Space;
    OwnsAll(m0, u0, m1, u1, r, base, mid, to);
    SetupWider(m0, u0, m1, u1, r, TOP, KERNEL_ENTRIES, base, mid, to, true, from, to);
    SetupWider(m1, u1, m2, u2, r, TOP, KERNEL_ENTRIES, base, from, mid, true, from, to);
    SetupTrans(m0, u0, m1, u1, m2, u2, r, TOP, KERNEL_ENTRIES, base, from, to, true);
  }

  lemma WiderRemap(m0: Memory, m1: Memory, r: nat, from: nat, to: nat, from': nat, to': nat)
    requires Remapped(m0, m1, r, TOP, KERNEL_ENTRIES, from, to, true) && from' <= from && to <= to'
    ensures Remapped(m0, m1, r, TOP, KERNEL_ENTRIES, from', to', true)
  {
    forall b: LinearAddress | KERNEL_ENTRIES <= Part(b, TOP)
      ensures RemapEffect(m0, m1, r, TOP, b, InRange(b, TOP, from', to'), true)
    {
      assert RemapEffect(m0, m1, r, TOP, b, InRange(b, TOP, from, to), true);
    }
  }

  /** The upper run came first. */
  lemma FirstRun(m0: Memory, u0: set<nat>, m1: Memory, u1: set<nat>, r: nat, base: set<nat>,
                 from: nat, mid: nat, to: nat, served: bool)
    requires Space(m0, u0, r, TOP, KERNEL_ENTRIES, base) && from <= mid <= to
    requires MapsPages(m0, u0, m1, u1, r, base, mid, to, true, served)
    ensures AbsentIn(m0, r, from, to) ==>
      && Setup(m0, u0, m1, u1, r, TOP, KERNEL_ENTRIES, base, mid, to, true)
      && Setup(m0, u0, m1, u1, r, TOP, KERNEL_ENTRIES, base, from, to, true)
  {
    hide Setup, Space, Compatible, Remapped, Served, AbsentIn, Own;
    if AbsentIn(m0, r, from, to) {
      AbsentPart(m0, r, from, mid, to);
      AbsentCompatible(m0, r, mid, to);
      SetupWider(m0, u0, m1, u1, r, TOP, KERNEL_ENTRIES, base, mid, to, true, from, to);
    }
  }

  /** Both runs are through. */
  lemma BothRuns(m0: Memory, u0: set<nat>, m1: Memory, u1: set<nat>, m2: Memory, u2: set<nat>, r: nat, base: set<nat>,
                 from: nat, mid: nat, to: nat, served: bool)
    requires Space(m0, u0, r, TOP, KERNEL_ENTRIES, base) && ReadOnly(m0, r, TOP, KERNEL_ENTRIES) && from <= mid <= to
    requires MapsPages(m0, u0, m1, u1, r, base, mid, to, true, true)
    requires MapsPages(m1, u1, m2, u2, r, base, from, mid, true, served)
    ensures AbsentIn(m0, r, from, to) ==> Setup(m0, u0, m2, u2, r, TOP, KERNEL_ENTRIES, base, from, to, true)
    ensures served ==> Served(m2, r, TOP, KERNEL_ENTRIES, from, to, true)
    ensures served ==> (Space(m2, u2, r, TOP, KERNEL_ENTRIES, base) <==> AbsentIn(m0, r, from, to))
  {
    hide Setup, Space, Compatible, Remapped, Served, AbsentIn, Own, ReadOnly;
    if AbsentIn(m0, r, from, to) {
      FirstRun(m0, u0, m1, u1, r, base, from, mid, to, true);
      OwnsAll(m0, u0, m1, u1, r, base, mid, to);
      AbsentPart(m0, r, from, mid, to);
      AbsentKept(m0, m1, r, from, mid, to);
      AbsentCompatible(m1, r, from, mid);
      TwoRuns(m0, u0, m1, u1, m2, u2, r, base, from, mid, to);
      OwnsAll(m0, u0, m2, u2, r, base, from, to);
    }
    if served {
      ServedKept(m1, m2, r, TOP, KERNEL_ENTRIES, from, to, mid, true, mid);
      ServedJoin(m2, r, TOP, KERNEL_ENTRIES, from, mid, to, true);
      WiderRemap(m0, m1, r, mid, to, from, to);
      WiderRemap(m1, m2, r, from, mid, from, to);
      RemappedTrans(m0, m1, m2, r, TOP, KERNEL_ENTRIES, from, from, to, true);
      if Space(m2, u2, r, TOP, KERNEL_ENTRIES, base) {
        RemapInOrder(m0, u0, m2, u2, r, TOP, KERNEL_ENTRIES, base, base, from, to, true);
        CompatibleAbsent(m0, r, from, to);
      }
    }
  }

  // ----- What the two runs take -----

  lemma {:induction false} MissingSame(mem: Memory, t: nat, level: nat, a: LinearAddress, b: LinearAddress)
    requires forall l :: 1 < l <= level ==> Part(a, l) == Part(b, l)
    ensures MissingTables(mem, t, level, a) == MissingTables(mem, t, level, b)
    decreases level
  {
    if level > 1 && EntryAt(mem, t, Part(a, level)).present {
      MissingSame(mem, EntryAt(mem, t, Part(a, level)).addr, level - 1, a, b);
    }
  }

  /** Pages outside the range of a run are as absent as before. */
  lemma {:induction false} AbsentSame(m0: Memory, m1: Memory, r: nat, a: LinearAddress, n: nat, mid: nat)
    requires KERNEL_ENTRIES <= a.pml4 && a.page + n <= ENTRIES
    requires Remapped(m0, m1, r, TOP, KERNEL_ENTRIES, mid, mid + 1, true)
    requires Low(a, TOP) + n <= mid
    ensures AbsentPages(m1, r, TOP, a, n) == AbsentPages(m0, r, TOP, a, n)
  {
    if n > 0 {
      AbsentSame(m0, m1, r, a, n - 1, mid);
      var b := a.(page := a.page + n - 1);
      assert KERNEL_ENTRIES <= Part(b, TOP);
      SameTable(b, a, n - 1);
      assert RemapEffect(m0, m1, r, TOP, b, InRange(b, TOP, mid, mid + 1), true);
    }
  }

  /** The argument page first and then the stack pages take what the whole range takes. */
  lemma StackNeeds(m0: Memory, m1: Memory, r: nat, args: LinearAddress, stack: LinearAddress, n: nat, mid: nat)
    requires stack.page + n < ENTRIES && args == stack.(page := stack.page + n) && 0 < n && KERNEL_ENTRIES <= args.pml4
    requires mid == Low(args, TOP) && Low(stack, TOP) + n == mid
    requires Remapped(m0, m1, r, TOP, KERNEL_ENTRIES, mid, mid + 1, true)
    requires Served(m1, r, TOP, KERNEL_ENTRIES, mid, mid + 1, true)
    ensures Need(m0, r, TOP, args, 1) + Need(m1, r, TOP, stack, n) == Need(m0, r, TOP, stack, n + 1)
  {
    hide Need, MissingTables, Low, Remapped, Served, Walk;
    NeedInOneTable(m0, r, TOP, args, 1);
    NeedInOneTable(m1, r, TOP, stack, n);
    NeedInOneTable(m0, r, TOP, stack, n + 1);
    MissingSame(m0, r, TOP, args, stack);
    ServedFirst(m1, r, args, mid);
    PresentNoneMissing(m1, r, TOP, args, stack);
    AbsentSame(m0, m1, r, stack, n, mid);
    assert args.(page := args.page) == args;
    assert AbsentPages(m0, r, TOP, args, 1)
        == AbsentPages(m0, r, TOP, args, 0) + if Walk(m0, r, TOP, args).present then 0 else 1;
    assert AbsentPages(m0, r, TOP, stack, n + 1)
        == AbsentPages(m0, r, TOP, stack, n) + if Walk(m0, r, TOP, args).present then 0 else 1;
  }

  lemma {:induction false} AllAbsent(mem: Memory, r: nat, a: LinearAddress, n: nat, from: nat, to: nat)
    requires KERNEL_ENTRIES <= a.pml4 && a.page + n <= ENTRIES && from == Low(a, TOP) && from + n <= to
    requires AbsentIn(mem, r, from, to)
    ensures AbsentPages(mem, r, TOP, a, n) == n
  {
    if n > 0 {
      AllAbsent(mem, r, a, n - 1, from, to);
      var b := a.(page := a.page + n - 1);
      SameTable(b, a, n - 1);
      assert KERNEL_ENTRIES <= Part(b, TOP) && InRange(b, TOP, from, to);
    }
  }

  /** In a space without any of the pages they all count. */
  lemma AbsentNeed(mem: Memory, r: nat, a: LinearAddress, n: nat, from: nat, to: nat)
    requires KERNEL_ENTRIES <= a.pml4 && 0 < n && a.page + n <= ENTRIES && from == Low(a, TOP) && from + n <= to
    requires AbsentIn(mem, r, from, to)
    ensures Need(mem, r, TOP, a, n) == n + MissingTables(mem, r, TOP, a)
  {
    hide Low, AbsentIn;
    NeedInOneTable(mem, r, TOP, a, n);
    AllAbsent(mem, r, a, n, from, to);
  }

  /**
   The argument page and the stack pages, for a space whose pages are all read-only so far, as they are in a
   fresh copy of an image.  If it is served, ownership is in order afterwards exactly if none of those pages was
   there before: a page of the image among them is made writable and would be freed with the application.
   */
  method SetupArgsAndStack(machine: Machine, ghost base: set<nat>) returns (error: Error)
    requires machine.Valid()
    requires Space(machine.mem, machine.Used(), machine.cr3, TOP, KERNEL_ENTRIES, base)
    requires ReadOnly(machine.mem, machine.cr3, TOP, KERNEL_ENTRIES)
    modifies machine`mem, machine.memoryManager.allocMap
    ensures machine.Valid() && machine.cr3 == old(machine.cr3)
    ensures error == Success || error == NoEnoughMemory
    ensures var from, to := Low(STACK_START, TOP), Low(ARGS_PAGE, TOP) + 1;
      && (error == Success ==>
            && Served(machine.mem, machine.cr3, TOP, KERNEL_ENTRIES, from, to, true)
            && (Space(machine.mem, machine.Used(), machine.cr3, TOP, KERNEL_ENTRIES, base)
                <==> AbsentIn(old(machine.mem), machine.cr3, from, to)))
      && (AbsentIn(old(machine.mem), machine.cr3, from, to) ==>
            Setup(old(machine.mem), old(machine.Used()), machine.mem, machine.Used(), machine.cr3, TOP, KERNEL_ENTRIES,
                  base, from, to, true))
    ensures error == Success <==>
      Need(old(machine.mem), machine.cr3, TOP, STACK_START, STACK_PAGES + 1) <= old(machine.Free())
    ensures machine.Free() ==
      if error == Success
      then old(machine.Free()) - Need(old(machine.mem), machine.cr3, TOP, STACK_START, STACK_PAGES + 1) else 0
  {
    hide Need, Setup, Space, Low, Served, ReadOnly, AbsentIn, MapsPages, Machine.Free;
    StackLayout();
    ghost var from, mid, to := Low(STACK_START, TOP), Low(ARGS_PAGE, TOP), Low(ARGS_PAGE, TOP) + 1;
    ghost var r, m0, u0 := machine.cr3, machine.mem, machine.Used();
    SpaceInShape(m0, u0, r, TOP, KERNEL_ENTRIES, base);
    error := machine.SetupPageMaps(ARGS_PAGE, 1, true, base);
    ghost var m1, u1 := machine.mem, machine.Used();
    FirstRun(m0, u0, m1, u1, r, base, from, mid, to, error == Success);
    NeedsMore(m0, r, ARGS_PAGE, STACK_START, STACK_PAGES);
    if error != Success {
      return;
    }
    MapsPagesParts(m0, u0, m1, u1, r, base, mid, to);
    StackNeeds(m0, m1, r, ARGS_PAGE, STACK_START, STACK_PAGES, mid);
    error := machine.SetupPageMaps(STACK_START, STACK_PAGES, true, base);
    BothRuns(m0, u0, m1, u1, machine.mem, machine.Used(), r, base, from, mid, to, error == Success);
  }

  lemma MapsPagesParts(m0: Memory, u0: set<nat>, m1: Memory, u1: set<nat>, r: nat, base: set<nat>, from: nat, to: nat)
    requires MapsPages(m0, u0, m1, u1, r, base, from, to, true, true)
    ensures Remapped(m0, m1, r, TOP, KERNEL_ENTRIES, from, to, true)
    ensures Served(m1, r, TOP, KERNEL_ENTRIES, from, to, true)
  {
  }

  /** The last page of a run takes no more than the whole run. */
  lemma NeedsMore(mem: Memory, r: nat, args: LinearAddress, stack: LinearAddress, n: nat)
    requires stack.page + n < ENTRIES && args == stack.(page := stack.page + n) && 0 < n
    ensures Need(mem, r, TOP, args, 1) <= Need(mem, r, TOP, stack, n + 1)
  {
    hide Need, MissingTables;
    NeedInOneTable(mem, r, TOP, args, 1);
    NeedInOneTable(mem, r, TOP, stack, n + 1);
    MissingSame(mem, r, TOP, args, stack);
    assert args.(page := args.page) == args;
    assert AbsentPages(mem, r, TOP, args, 1)
        == AbsentPages(mem, r, TOP, args, 0) + if Walk(mem, r, TOP, args).present then 0 else 1;
    assert AbsentPages(mem, r, TOP, stack, n + 1)
        == AbsentPages(mem, r, TOP, stack, n) + if Walk(mem, r, TOP, args).present then 0 else 1;
  }
}
