/**
 Running applications: start from a cached image, fault, load and store, end.  Every operation keeps the
 frames of the system accounted for and what each application sees apart from the others.
 */
module Kernels {
  import opened Errors
  import opened PageTable
  import opened PageMapping
  import opened Permission
  import opened Shadow
  import opened FrameCount
  import opened CleanProof
  import opened CopyProof
  import MemoryManager
  import opened Paging
  import opened AddressSpace
  import opened Addresses
  import opened FileRegions
  import opened Application
  import opened StackSetup
  import PageContents

  /** What can happen next. */
  datatype Event =
    | StartApp(image: nat)
    | StoreWord(root: nat, vaddr: nat, value: Entry, regions: Regions)
    | LoadWord(root: nat, vaddr: nat, regions: Regions)
    | ExitApp(root: nat)

  // ----- When a fault is served -----

  /** A write to a present read-only page needs a frame for the copy. */
  ghost predicate WriteServed(free: nat) {
    free > 0
  }

  /** An absent page must have something to hold, and frames for it and the tables missing on the way. */
  ghost predicate AbsentServed(mem: Memory, r: nat, vaddr: nat, regions: Regions, free: nat) {
    InitialPage(regions, vaddr).Some? && Need(mem, r, TOP, PageAt(vaddr), 1) <= free
  }

  ghost predicate StoreServed(mem: Memory, r: nat, vaddr: nat, regions: Regions, free: nat) {
    var w := Walk(mem, r, TOP, PageAt(vaddr));
    if w.present then w.writable || WriteServed(free) else AbsentServed(mem, r, vaddr, regions, free)
  }

  ghost predicate LoadServed(mem: Memory, r: nat, vaddr: nat, regions: Regions, free: nat) {
    Walk(mem, r, TOP, PageAt(vaddr)).present || AbsentServed(mem, r, vaddr, regions, free)
  }

  class Kernel {
    const machine: Machine
    const kernelPml4: nat
    ghost const base: set<nat>
    ghost const images: set<nat>
    var live: set<nat>
    ghost var apps: Apps

    ghost predicate Valid()
      reads this, machine, machine.memoryManager, machine.memoryManager.allocMap
    {
      && machine.Valid()
      && Consistent(machine.mem, machine.Used(), apps, base, images)
      && live == apps.live.Keys
      && kernelPml4 in base && kernelPml4 < |machine.mem|
      && machine.cr3 in base + Spaces(apps) && machine.cr3 < |machine.mem|
    }

    constructor (machine: Machine, kernelPml4: nat, ghost images: set<nat>)
      requires machine.Valid() && machine.cr3 in machine.Used() && machine.cr3 < |machine.mem|
      requires kernelPml4 in machine.Used() && forall f :: f in machine.Used() ==> f < |machine.mem|
      requires forall i :: i in images ==> GoodImage(machine.mem, i, machine.Used())
      ensures Valid() && this.machine == machine && this.kernelPml4 == kernelPml4
      ensures base == machine.Used() && this.images == images && apps == Apps(map[], {})
    {
      this.machine := machine;
      this.kernelPml4 := kernelPml4;
      this.base := machine.Used();
      this.images := images;
      this.live := {};
      this.apps := Apps(map[], {});
    }

    /** A new top table with the kernel's half of the current one; it becomes the current one. */
    method SetupPML4() returns (r: WithError<nat>)
      requires Valid()
      modifies this`apps, machine, machine.memoryManager.allocMap
      ensures Valid() && (r.error == Success || r.error == NoEnoughMemory)
      ensures r.error == Success <==> old(machine.Free()) > 0
      ensures machine.Free() == if r.error == Success then old(machine.Free()) - 1 else 0
      ensures r.error != Success ==>
        apps == old(apps) && machine.mem == old(machine.mem) && machine.Used() == old(machine.Used())
      ensures r.error == Success ==>
        && r.value !in old(machine.Used()) && r.value !in Spaces(old(apps))
        && apps == old(apps).(lost := old(apps).lost + {r.value})
        && machine.cr3 == r.value && r.value < |machine.mem|
        && Space(machine.mem, machine.Used(), r.value, TOP, KERNEL_ENTRIES, base)
        && EmptyFrom(machine.mem, r.value, KERNEL_ENTRIES)
        && (forall i: Index :: i < KERNEL_ENTRIES ==> machine.mem[r.value][i] == old(machine.mem[machine.cr3])[i])
        && Local(old(machine.mem), old(machine.Used()), machine.mem, machine.Used(), Spaces(apps), base, r.value)
      ensures |machine.mem| == |old(machine.mem)| && SameFrames(old(machine.mem), machine.mem, base)
    {
      hide Consistent, Local, Space, EmptyFrom;
      ghost var m0, u0 := machine.mem, machine.Used();
      CurrentInUse(m0, u0, apps, base, images, machine.cr3);
      r := machine.NewPageMap();
      if r.error != Success {
        return;
      }
      var current := machine.mem[machine.cr3];
      machine.mem := machine.mem[r.value := current[..KERNEL_ENTRIES] + machine.mem[r.value][KERNEL_ENTRIES..]];
      machine.cr3 := r.value;
      NewSpace(m0, u0, machine.mem, machine.Used(), apps, base, images, r.value);
      apps := apps.(lost := apps.lost + {r.value});
      LocalBase(m0, u0, machine.mem, machine.Used(), Spaces(apps), base, r.value);
    }

    /** The cached branch of LoadApp, once the new top table is current. */
    method LoadCached(r: nat, image: nat) returns (error: Error)
      requires Valid() && image in images && r in apps.lost && machine.cr3 == r
      requires Space(machine.mem, machine.Used(), r, TOP, KERNEL_ENTRIES, base)
      requires EmptyFrom(machine.mem, r, KERNEL_ENTRIES)
      modifies machine`mem, machine.memoryManager.allocMap
      ensures Valid() && (error == Success || error == NoEnoughMemory)
      ensures error == Success <==> 3 <= old(machine.Free())
      ensures machine.Free() == if error == Success then old(machine.Free()) - 3 else 0
      ensures SameFrames(old(machine.mem), machine.mem, base) && |machine.mem| == |old(machine.mem)|
      ensures Space(machine.mem, machine.Used(), r, TOP, KERNEL_ENTRIES, base)
      ensures error == Success ==> Loaded(old(machine.mem), machine.mem, r, image)
    {
      hide Consistent, Space, CopyGrows, Copied, GoodImage, Image, CanCopy, EmptyFrom, Loaded, PathTables, ClearOfStack,
           SameFrames;
      ghost var m0, u0 := machine.mem, machine.Used();
      ImageOf(m0, u0, apps, base, images, image);
      error := machine.CopyPageMaps(r, image, TOP, KERNEL_ENTRIES, base);
      LoadStep(m0, u0, machine.mem, machine.Used(), apps, base, images, r);
      if error == Success {
        LoadedIs(m0, machine.mem, r, image, base);
      }
    }

    /** The argument and stack pages of a space whose image keeps clear of them. */
    method SetupStack(r: nat, image: nat, ghost m0: Memory) returns (error: Error)
      requires Valid() && image in images && r in apps.lost && machine.cr3 == r
      requires Space(machine.mem, machine.Used(), r, TOP, KERNEL_ENTRIES, base)
      requires Loaded(m0, machine.mem, r, image)
      modifies machine`mem, machine.memoryManager.allocMap
      ensures Valid() && (error == Success || error == NoEnoughMemory)
      ensures error == Success <==> StartNeed(m0, image) - 4 <= old(machine.Free())
      ensures machine.Free() == if error == Success then old(machine.Free()) - (StartNeed(m0, image) - 4) else 0
      ensures SameFrames(old(machine.mem), machine.mem, base) && |machine.mem| == |old(machine.mem)|
      ensures error == Success ==> Shows(machine.mem, r, StartView(m0, image))
    {
      hide Consistent, Space, Shows, Setup, Served, AllPresent, Low, ReadOnly, AbsentIn, Need, MissingTables,
           SameFrames,
           Mapped, Grows, Machine.Free, Loaded, StartNeed;
      ghost var m1, u1 := machine.mem, machine.Used();
      ghost var from, to := Low(STACK_START, TOP), Low(ARGS_PAGE, TOP) + 1;
      LoadedParts(m0, m1, r, image, from, to);
      error := SetupArgsAndStack(machine, base);
      SetupGrows(m1, u1, machine.mem, machine.Used(), base, r, from, to);
      GrowLost(m1, u1, machine.mem, machine.Used(), apps, base, images, r);
      if error == Success {
        ServedPresent(machine.mem, r, TOP, KERNEL_ENTRIES, from, to, true);
        StartViewIs(m0, m1, u1, machine.mem, machine.Used(), r, image);
      }
    }

    /**
     Start an application from a cached image: its own tables, then the argument and stack pages.  It succeeds
     exactly if StartNeed frames are free, which 24 always are enough for; and a space is lost exactly if
     there are fewer, but not none at all.
     */
    method Start(image: nat) returns (r: WithError<nat>)
      requires Valid() && image in images
      modifies this, machine, machine.memoryManager.allocMap
      ensures Valid() && (r.error == Success || r.error == NoEnoughMemory)
      ensures r.error == Success <==> StartNeed(old(machine.mem), image) <= old(machine.Free())
      ensures StartNeed(old(machine.mem), image) <= 24
      ensures machine.Free() ==
        if r.error == Success then old(machine.Free()) - StartNeed(old(machine.mem), image) else 0
      ensures r.error != Success ==> apps.live == old(apps).live && old(apps).lost <= apps.lost
      ensures apps.lost == old(apps).lost <==> r.error == Success || old(machine.Free()) == 0
      ensures r.error == Success ==>
        && r.value !in Spaces(old(apps)) && machine.cr3 == r.value
        && apps == Admitted(old(apps), r.value, App(image, StartView(old(machine.mem), image)))
      ensures SameFrames(old(machine.mem), machine.mem, base) && |machine.mem| == |old(machine.mem)|
    {
      hide Consistent, Local, Space, EmptyFrom, GoodImage, SameFrames, StartView, StartNeed, Machine.Free;
      ghost var m0, apps0 := machine.mem, apps;
      ImageOf(m0, machine.Used(), apps, base, images, image);
      r := SetupPML4();
      ghost var m1 := machine.mem;
      StartNeedKept(m0, m1, image, base);
      if r.error != Success {
        return;
      }
      StartSame(m0, m1, image, base);
      var error := FillSpace(r.value, image);
      SameFramesTrans(m0, m1, machine.mem, base);
      AdmittedLost(apps0, r.value, App(image, StartView(m0, image)));
      r := WithError(r.value, error);
    }

    /** The rest of a start, once the new top table is current. */
    method FillSpace(r: nat, image: nat) returns (error: Error)
      requires Valid() && image in images && r in apps.lost && machine.cr3 == r
      requires Space(machine.mem, machine.Used(), r, TOP, KERNEL_ENTRIES, base)
      requires EmptyFrom(machine.mem, r, KERNEL_ENTRIES)
      modifies this, machine`mem, machine.memoryManager.allocMap
      ensures Valid() && (error == Success || error == NoEnoughMemory)
      ensures error == Success <==> StartNeed(old(machine.mem), image) - 1 <= old(machine.Free())
      ensures machine.Free() ==
        if error == Success then old(machine.Free()) - (StartNeed(old(machine.mem), image) - 1) else 0
      ensures apps == if error == Success then Admitted(old(apps), r, App(image, StartView(old(machine.mem), image)))
                      else old(apps)
      ensures SameFrames(old(machine.mem), machine.mem, base) && |machine.mem| == |old(machine.mem)|
    {
      hide Consistent, Local, Space, EmptyFrom, Shows, GoodImage, SameFrames, FromImage, StartView, StartNeed, Loaded,
           Machine.Free, AppInOrder;
      ghost var m0 := machine.mem;
      ImageOf(m0, machine.Used(), apps, base, images, image);
      LostNotLive(m0, machine.Used(), apps, base, images, r);
      error := LoadCached(r, image);
      ghost var m1 := machine.mem;
      StartNeedKept(m0, m1, image, base);
      if error != Success {
        return;
      }
      error := SetupStack(r, image, m0);
      SameFramesTrans(m0, m1, machine.mem, base);
      if error != Success {
        return;
      }
      StartFromImage(m0, machine.mem, image, base);
      ghost var app := App(image, StartView(m0, image));
      AdmitInOrder(machine.mem, r, app, images);
      Admit(machine.mem, machine.Used(), apps, base, images, r, app);
      apps := Admitted(apps, r, app);
      live := live + {r};
    }

    /** A write to a present read-only page: give the page a private copy. */
    method ServeWrite(causal: LinearAddress) returns (error: Error)
      requires Valid() && machine.cr3 in apps.live && KERNEL_ENTRIES <= causal.pml4
      requires Walk(machine.mem, machine.cr3, TOP, causal).present
      requires !Walk(machine.mem, machine.cr3, TOP, causal).writable
      modifies machine`mem, machine.memoryManager.allocMap
      ensures Valid() && machine.cr3 == old(machine.cr3)
      ensures Local(old(machine.mem), old(machine.Used()), machine.mem, machine.Used(), Spaces(apps), base, machine.cr3)
      ensures error == Success || error == NoEnoughMemory
      ensures error == Success <==> WriteServed(old(machine.Free()))
      ensures old(machine.Free()) <= machine.Free() + 1
      ensures error == Success ==>
        var w := Walk(machine.mem, machine.cr3, TOP, causal); w.present && w.writable
    {
      hide Consistent, Local, Walk, Space, System, Image, Shows;
      ghost var m0, u0, r := machine.mem, machine.Used(), machine.cr3;
      SelfLocal(m0, u0, apps, base, images, r);
      LiveSpace(m0, u0, apps, base, images, r);
      error := machine.CopyOnePage(causal, base);
      if error == Success {
        ghost var p :| PrivateCopy(m0, u0, machine.mem, machine.Used(), r, base, causal, p);
        CopyOnWriteStep(m0, u0, machine.mem, machine.Used(), apps, base, images, r, causal, p);
      }
    }

    /** An absent page of the demand region: map a zeroed page. */
    method ServeDemand(causal: LinearAddress) returns (error: Error)
      requires Valid() && machine.cr3 in apps.live && KERNEL_ENTRIES <= causal.pml4
      requires !Walk(machine.mem, machine.cr3, TOP, causal).present
      modifies this`apps, machine`mem, machine.memoryManager.allocMap
      ensures Valid() && machine.cr3 == old(machine.cr3) && machine.cr3 in apps.live
      ensures Local(old(machine.mem), old(machine.Used()), machine.mem, machine.Used(), Spaces(apps), base, machine.cr3)
      ensures Spaces(apps) == Spaces(old(apps)) && apps.lost == old(apps).lost
      ensures OthersSame(old(apps), apps, machine.cr3)
      ensures error == Success || error == NoEnoughMemory
      ensures error == Success <==> Need(old(machine.mem), machine.cr3, TOP, causal, 1) <= old(machine.Free())
      ensures machine.Free() ==
        if error == Success then old(machine.Free()) - Need(old(machine.mem), machine.cr3, TOP, causal, 1) else 0
      ensures error == Success ==>
        && apps == WithPage(old(apps), machine.cr3, causal, ZeroFrame())
        && Walk(machine.mem, machine.cr3, TOP, causal).present && Walk(machine.mem, machine.cr3, TOP, causal).writable
    {
      hide Consistent, Local, Walk, Space, System, Image, Shows, Low, Compatible, Setup, AllPresent, Served, Need,
           Grown,
           MapsPages, FromImage, GoodImage, InShape, OthersSame, Machine.Free;
      ghost var m0, u0, r := machine.mem, machine.Used(), machine.cr3;
      ghost var from := Low(causal, TOP);
      LiveSpace(m0, u0, apps, base, images, r);
      LiveIs(m0, u0, apps, base, images, r);
      SeenAt(m0, r, apps.live[r].view, causal);
      OnePageCompatible(m0, r, causal, true);
      SpaceInShape(m0, u0, r, TOP, KERNEL_ENTRIES, base);
      error := machine.SetupPageMaps(causal, 1, true, base);
      ghost var m1, u1 := machine.mem, machine.Used();
      MapsOne(m0, u0, m1, u1, r, base, from, error == Success);
      GrowLive(m0, u0, m1, u1, apps, base, images, r, from, from + 1);
      if error == Success {
        GrownByOne(m0, u0, m1, u1, r, apps.live[r].view, base, causal, from);
      }
      RegrownOthers(m0, u0, apps, base, images, r, m1);
      apps := Regrown(apps, r, m1);
    }

    /** An absent page of a file mapping: map a page and load the file's bytes into it. */
    method PreparePageCache(causal: LinearAddress, data: Frame) returns (error: Error)
      requires Valid() && machine.cr3 in apps.live && KERNEL_ENTRIES <= causal.pml4
      requires !Walk(machine.mem, machine.cr3, TOP, causal).present
      modifies this`apps, machine`mem, machine.memoryManager.allocMap
      ensures Valid() && machine.cr3 == old(machine.cr3) && machine.cr3 in apps.live
      ensures Local(old(machine.mem), old(machine.Used()), machine.mem, machine.Used(), Spaces(apps), base, machine.cr3)
      ensures Spaces(apps) == Spaces(old(apps)) && apps.lost == old(apps).lost
      ensures OthersSame(old(apps), apps, machine.cr3)
      ensures error == Success || error == NoEnoughMemory
      ensures error == Success <==> Need(old(machine.mem), machine.cr3, TOP, causal, 1) <= old(machine.Free())
      ensures machine.Free() ==
        if error == Success then old(machine.Free()) - Need(old(machine.mem), machine.cr3, TOP, causal, 1) else 0
      ensures error == Success ==>
        && apps == WithPage(old(apps), machine.cr3, causal, data)
        && Walk(machine.mem, machine.cr3, TOP, causal).present && Walk(machine.mem, machine.cr3, TOP, causal).writable
    {
      hide Consistent, Local, Walk, Space, System, Image, Shows, Low, SameFrames, FromImage, GoodImage, Need, Shared;
      ghost var m0, u0, r, apps0 := machine.mem, machine.Used(), machine.cr3, apps;
      BaseInMemory(m0, u0, apps, base, images);
      Untouched(m0, u0, apps, base, images, r, causal);
      error := ServeDemand(causal);
      if error != Success {
        return;
      }
      ghost var m1, u1 := machine.mem, machine.Used();
      LocalBase(m0, u0, m1, u1, Spaces(apps), base, r);
      StillApart(m0, u0, m1, apps0, base, images, r, causal);
      LiveSpace(m1, u1, apps, base, images, r);
      PageFrame(m1, u1, base, r, causal);
      var page := Walk(machine.mem, machine.cr3, TOP, causal).addr;
      machine.mem := machine.mem[page := data];
      FillStep(m1, machine.mem, u1, apps, base, images, r, causal, page, data);
      LocalTrans(m0, u0, m1, u1, machine.mem, u1, Spaces(apps), base, r);
      RefilledOthers(m0, u0, apps0, base, images, r, causal, data);
      apps := WithPage(apps, r, causal, data);
    }

    /** The page-fault handler; the current address space is that of the live space at cr3. */
    method HandlePageFault(present: bool, rw: bool, user: bool, vaddr: nat, regions: Regions)
      returns (error: Error)
      requires Valid() && machine.cr3 in apps.live && UserAddress(vaddr)
      requires present == Walk(machine.mem, machine.cr3, TOP, PageAt(vaddr)).present
      requires present && rw && user ==> !Walk(machine.mem, machine.cr3, TOP, PageAt(vaddr)).writable
      modifies this`apps, machine`mem, machine.memoryManager.allocMap
      ensures Valid() && machine.cr3 == old(machine.cr3) && machine.cr3 in apps.live
      ensures Local(old(machine.mem), old(machine.Used()), machine.mem, machine.Used(), Spaces(apps), base, machine.cr3)
      ensures Spaces(apps) == Spaces(old(apps)) && apps.lost == old(apps).lost
      ensures OthersSame(old(apps), apps, machine.cr3)
      ensures error == AlreadyAllocated <==> present && !(rw && user)
      ensures error == IndexOutOfRange <==> !present && InitialPage(regions, vaddr).None?
      ensures error == Success <==>
        if present then rw && user && WriteServed(old(machine.Free()))
        else AbsentServed(old(machine.mem), machine.cr3, vaddr, regions, old(machine.Free()))
      ensures error == Success || error == NoEnoughMemory || error == AlreadyAllocated || error == IndexOutOfRange
      ensures error == AlreadyAllocated || error == IndexOutOfRange ==>
        apps == old(apps) && machine.mem == old(machine.mem) && machine.Used() == old(machine.Used())
      ensures old(machine.Free()) <= machine.Free() + 4
      ensures error == Success ==>
        && apps == (if present then old(apps)
            else WithPage(old(apps), machine.cr3, PageAt(vaddr), InitialPage(regions, vaddr).value))
        && Walk(machine.mem, machine.cr3, TOP, PageAt(vaddr)).present
        && Walk(machine.mem, machine.cr3, TOP, PageAt(vaddr)).writable
      ensures !present ==>
        var page := LinearAddress(vaddr / 0x80_0000_0000 % 512, vaddr / 0x4000_0000 % 512, vaddr / 0x20_0000 % 512,
                                  vaddr / 0x1000 % 512);
        var w := Walk(machine.mem, machine.cr3, TOP, page);
        && (error == Success <==>
              && (|| regions.dpagingBegin <= vaddr < regions.dpagingEnd
                  || exists j :: 0 <= j < |regions.fileMaps|
                       && regions.fileMaps[j].vaddrBegin <= vaddr < regions.fileMaps[j].vaddrEnd)
              && Need(old(machine.mem), machine.cr3, TOP, page, 1) <= old(machine.Free()))
        && (error == Success ==>
              w.present && w.addr < |machine.mem| && FirstContents(machine.mem[w.addr], regions, vaddr))
    {
      hide Consistent, Local, Low, Walk, Need, OthersSame, InitialPage, InitialBytes, PageBytes, FirstContents,
           WithPage, PageContents.Packed, FindMapping;
      SelfLocal(machine.mem, machine.Used(), apps, base, images, machine.cr3);
      SelfSame(machine.mem, machine.Used(), apps, base, images, machine.cr3);
      var causal := PageAt(vaddr);
      UpperHalf(vaddr);
      OnePageNeed(machine.mem, machine.cr3, causal);
      InitialCases(regions, vaddr);
      InitialIff(regions, vaddr);
      ghost var apps0 := apps;
      if present && rw && user {
        error := ServeWrite(causal);
        return;
      } else if present {
        return AlreadyAllocated;
      }
      Untouched(machine.mem, machine.Used(), apps, base, images, machine.cr3, causal);
      if Demanded(regions, vaddr) {
        DemandedPage(regions, vaddr);
        error := ServeDemand(causal);
        if error == Success {
          FaultFills(machine.mem, machine.Used(), apps0, apps, base, images, machine.cr3, vaddr, regions);
        }
        return;
      }
      var m := FindMapping(regions.fileMaps, vaddr);
      if m.Some? {
        FilePage(regions, vaddr, m.value);
        var bytes := PageBytes(ContentOf(regions, m.value.fd), m.value, PageOf(vaddr));
        error := PreparePageCache(causal, PageContents.Packed(bytes));
        if error == Success {
          FaultFills(machine.mem, machine.Used(), apps0, apps, base, images, machine.cr3, vaddr, regions);
        }
        return;
      }
      return IndexOutOfRange;
    }

    /** An application stores one word; ok is false if a fault on the way cannot be served. */
    method UserStore(r: nat, vaddr: nat, v: Entry, regions: Regions) returns (ok: bool)
      requires Valid() && r in apps.live && UserAddress(vaddr) && vaddr % 8 == 0
      modifies this`apps, machine`mem, machine`cr3, machine.memoryManager.allocMap
      ensures Valid() && r in apps.live && |machine.mem| == |old(machine.mem)|
      ensures SameFrames(old(machine.mem), machine.mem, base)
      ensures Local(old(machine.mem), old(machine.Used()), machine.mem, machine.Used(), Spaces(apps), base, r)
      ensures Spaces(apps) == Spaces(old(apps)) && apps.lost == old(apps).lost && OthersSame(old(apps), apps, r)
      ensures ok <==> StoreServed(old(machine.mem), r, vaddr, regions, old(machine.Free()))
      ensures old(machine.Free()) <= machine.Free() + 4
      ensures ok ==> apps == StoredTo(old(apps), r, vaddr, v, regions)
      ensures ok ==> HoldsWord(machine.mem, r, PageAt(vaddr), WordAt(vaddr), v)
      ensures ok ==> StoredPlainly(old(machine.mem), machine.mem, r, vaddr, regions, v)
    {
      hide Consistent, Local, Walk, Space, System, Image, Shows, FromImage, GoodImage, SameFrames, InitialPage,
           OthersSame, PageAt, WordAt, FirstContents, StoredOver, StoreServed, Faulted, Logged, Machine.Free,
           StoredPlainly, HoldsWord, UserAddress, Lies, Need, Spaces;
      ghost var m0, u0, apps0 := machine.mem, machine.Used(), apps;
      UpperHalf(vaddr);
      BaseInMemory(m0, u0, apps, base, images);
      machine.cr3 := r;
      LiveSpace(m0, u0, apps, base, images, r);
      ok := MakeWritable(vaddr, regions);
      ghost var m1, u1, apps1 := machine.mem, machine.Used(), apps;
      LocalBase(m0, u0, m1, u1, Spaces(apps), base, r);
      if ok {
        ghost var f := PutWord(PageAt(vaddr), WordAt(vaddr), v);
        StorePlain(m0, m1, machine.mem, r, vaddr, regions, v, f);
        LocalTrans(m0, u0, m1, u1, machine.mem, machine.Used(), Spaces(apps), base, r);
        LoggedOthers(apps0, apps1, r, Store(PageAt(vaddr), WordAt(vaddr), v));
      }
      LocalBase(m0, u0, machine.mem, machine.Used(), Spaces(apps), base, r);
    }

    /** The store itself, once the page is writable. */
    method PutWord(a: LinearAddress, k: Index, v: Entry) returns (ghost f: nat)
      requires Valid() && machine.cr3 in apps.live && KERNEL_ENTRIES <= a.pml4
      requires Walk(machine.mem, machine.cr3, TOP, a).present && Walk(machine.mem, machine.cr3, TOP, a).writable
      modifies this`apps, machine`mem
      ensures Valid() && apps == Logged(old(apps), machine.cr3, Store(a, k, v)) && Spaces(apps) == Spaces(old(apps))
      ensures Local(old(machine.mem), machine.Used(), machine.mem, machine.Used(), Spaces(apps), base, machine.cr3)
      ensures Walk(machine.mem, machine.cr3, TOP, a) == Walk(old(machine.mem), machine.cr3, TOP, a)
      ensures f == Walk(machine.mem, machine.cr3, TOP, a).addr && f < |old(machine.mem)|
      ensures machine.mem == old(machine.mem)[f := old(machine.mem)[f][k := v]]
      ensures HoldsWord(machine.mem, machine.cr3, a, k, v)
    {
      hide Consistent, Local, Walk, Space, System, Image, Shows, FromImage, GoodImage, SameFrames, OthersSame, Logged,
           Machine.Free;
      ghost var m0, used, r := machine.mem, machine.Used(), machine.cr3;
      LiveSpace(m0, used, apps, base, images, r);
      PageFrame(m0, used, base, r, a);
      var g := Walk(machine.mem, machine.cr3, TOP, a).addr;
      machine.SetEntry(g, k, v);
      StoreStep(m0, machine.mem, used, apps, base, images, r, a, k, v, g);
      LoggedKeys(apps, r, Store(a, k, v));
      apps := Logged(apps, r, Store(a, k, v));
      f := g;
    }

    /** Make the page of a writable for the current application, through the fault handler if need be. */
    method MakeWritable(vaddr: nat, regions: Regions) returns (ok: bool)
      requires Valid() && machine.cr3 in apps.live && UserAddress(vaddr) && vaddr % 8 == 0
      modifies this`apps, machine`mem, machine.memoryManager.allocMap
      ensures Valid() && machine.cr3 == old(machine.cr3) && machine.cr3 in apps.live
      ensures Local(old(machine.mem), old(machine.Used()), machine.mem, machine.Used(), Spaces(apps), base, machine.cr3)
      ensures Spaces(apps) == Spaces(old(apps)) && apps.lost == old(apps).lost
      ensures OthersSame(old(apps), apps, machine.cr3)
      ensures ok <==> StoreServed(old(machine.mem), machine.cr3, vaddr, regions, old(machine.Free()))
      ensures old(machine.Free()) <= machine.Free() + 4
      ensures
        var w := Walk(machine.mem, machine.cr3, TOP, PageAt(vaddr));
        ok && !Walk(old(machine.mem), machine.cr3, TOP, PageAt(vaddr)).present ==>
          w.addr < |machine.mem| && FirstContents(machine.mem[w.addr], regions, vaddr)
      ensures ok ==>
        && apps == Faulted(old(apps), machine.cr3, vaddr, regions)
        && Walk(machine.mem, machine.cr3, TOP, PageAt(vaddr)).present
        && Walk(machine.mem, machine.cr3, TOP, PageAt(vaddr)).writable
    {
      hide Consistent, Local, Walk, Space, System, Image, Shows, FromImage, GoodImage, InitialPage, OthersSame,
           PageAt, WordAt, FirstContents, FirstWord, StoredOver;
      var a := PageAt(vaddr);
      UpperHalf(vaddr);
      PageAtIs(vaddr);
      LiveIs(machine.mem, machine.Used(), apps, base, images, machine.cr3);
      SeenAt(machine.mem, machine.cr3, apps.live[machine.cr3].view, a);
      SelfLocal(machine.mem, machine.Used(), apps, base, images, machine.cr3);
      SelfSame(machine.mem, machine.Used(), apps, base, images, machine.cr3);
      var w := Walk(machine.mem, machine.cr3, TOP, a);
      if w.present && w.writable {
        return true;
      }
      var error := HandlePageFault(w.present, true, true, vaddr, regions);
      ok := error == Success;
    }

    /** An application reads one word: the first contents of the page, overlaid with its own stores. */
    method UserLoad(r: nat, vaddr: nat, regions: Regions) returns (ok: bool, value: Entry)
      requires Valid() && r in apps.live && UserAddress(vaddr) && vaddr % 8 == 0
      modifies this`apps, machine`mem, machine`cr3, machine.memoryManager.allocMap
      ensures Valid() && r in apps.live && |machine.mem| == |old(machine.mem)|
      ensures SameFrames(old(machine.mem), machine.mem, base)
      ensures Local(old(machine.mem), old(machine.Used()), machine.mem, machine.Used(), Spaces(apps), base, r)
      ensures Spaces(apps) == Spaces(old(apps)) && apps.lost == old(apps).lost && OthersSame(old(apps), apps, r)
      ensures ok <==> LoadServed(old(machine.mem), r, vaddr, regions, old(machine.Free()))
      ensures old(machine.Free()) <= machine.Free() + 4
      ensures ok ==>
        && apps == Faulted(old(apps), r, vaddr, regions)
        && PageAt(vaddr) in apps.live[r].view.first
        && value == Seen(apps.live[r].view, PageAt(vaddr), WordAt(vaddr))
      ensures
        var page := LinearAddress(vaddr / 0x80_0000_0000 % 512, vaddr / 0x4000_0000 % 512, vaddr / 0x20_0000 % 512,
                                  vaddr / 0x1000 % 512);
        ok && !Walk(old(machine.mem), r, TOP, page).present ==> FirstWord(value, regions, vaddr)
    {
      hide Consistent, Local, Walk, Space, System, Image, Shows, FromImage, GoodImage, InitialPage, OthersSame,
           PageAt, WordAt, FirstContents, FirstWord, StoredOver,
           SameFrames;
      value := ZERO;
      var a, k := PageAt(vaddr), WordAt(vaddr);
      UpperHalf(vaddr);
      PageAtIs(vaddr);
      ghost var m0, u0 := machine.mem, machine.Used();
      LiveSpace(m0, u0, apps, base, images, r);
      LiveIs(m0, u0, apps, base, images, r);
      SeenAt(m0, r, apps.live[r].view, a);
      SelfLocal(m0, u0, apps, base, images, r);
      SelfSame(m0, u0, apps, base, images, r);
      machine.cr3 := r;
      ok := Walk(machine.mem, r, TOP, a).present;
      if !ok {
        var error := HandlePageFault(false, false, true, vaddr, regions);
        ok := error == Success;
      }
      LocalBase(m0, u0, machine.mem, machine.Used(), Spaces(apps), base, r);
      if ok {
        LiveIs(machine.mem, machine.Used(), apps, base, images, r);
        SeenAt(machine.mem, r, apps.live[r].view, a);
        var page := machine.mem[Walk(machine.mem, r, TOP, a).addr];
        value := page[k];
        if FirstContents(page, regions, vaddr) {
          WordOfContents(page, regions, vaddr);
        }
      }
    }

    /** The end of an application: its pages, its tables, and last its top table. */
    method Exit(r: nat)
      requires Valid() && r in apps.live
      modifies this, machine`mem, machine`cr3, machine.memoryManager.allocMap
      ensures Valid() && apps == Ended(old(apps), r)
      ensures SameFrames(old(machine.mem), machine.mem, base) && |machine.mem| == |old(machine.mem)|
      ensures machine.Used() == old(machine.Used()) - old(Frames(machine.mem, r))
      ensures machine.Free() >= old(machine.Free())
      ensures Local(old(machine.mem), old(machine.Used()), machine.mem, machine.Used(), Spaces(old(apps)) - {r}, base,
                    r)
    {
      hide Consistent, Local, Space, System, Image, Shows, Walk, Frames, Cleaned, FromImage, GoodImage;
      ghost var m0, u0, apps0 := machine.mem, machine.Used(), apps;
      LiveSpace(m0, u0, apps, base, images, r);
      machine.cr3 := r;
      var bottom := LinearAddress(KERNEL_ENTRIES, 0, 0, 0);
      machine.CleanPageMaps(bottom, base);
      ghost var m1, u1 := machine.mem, machine.Used();
      EndStep(m0, u0, m1, u1, apps, base, images, r, bottom);
      machine.cr3 := kernelPml4;
      machine.FreeFrame(r);
      LocalBase(m0, u0, machine.mem, machine.Used(), Spaces(apps) - {r}, base, r);
      MoreFree(u0, machine.Used(), machine.memoryManager.rangeBegin, machine.memoryManager.rangeEnd);
      apps := Ended(apps, r);
      live := live - {r};
    }
  }

  /** A fresh copy of an image, as the setting up of its stack finds it. */
  ghost predicate Loaded(m0: Memory, m1: Memory, r: nat, image: nat) {
    && Shows(m1, r, ImageView(m0, image)) && ReadOnly(m1, r, TOP, KERNEL_ENTRIES)
    && AbsentIn(m1, r, Low(STACK_START, TOP), Low(ARGS_PAGE, TOP) + 1)
    && MissingTables(m1, r, TOP, STACK_START) == PathMissing(m0, image, TOP, KERNEL_ENTRIES, STACK_START)
  }

  lemma LoadedIs(m0: Memory, m1: Memory, r: nat, image: nat, base: set<nat>)
    requires GoodImage(m0, image, base) && |m1| == |m0| && SameFrames(m0, m1, base)
    requires Copied(m0, m1, r, image, TOP, KERNEL_ENTRIES) && PathTables(m0, m1, r, image, TOP, KERNEL_ENTRIES)
    ensures Loaded(m0, m1, r, image)
  {
    hide Shows, Copied, GoodImage, Low, ReadOnly, AbsentIn, PathTables, MissingTables, PathMissing, SameFrames;
    LoadShows(m0, m1, r, image, base, Low(STACK_START, TOP), Low(ARGS_PAGE, TOP) + 1);
    PathMissingIs(m0, m1, r, image, TOP, KERNEL_ENTRIES, STACK_START);
  }

  lemma LoadedParts(m0: Memory, m1: Memory, r: nat, image: nat, from: nat, to: nat)
    requires Loaded(m0, m1, r, image) && from == Low(STACK_START, TOP) && to == Low(ARGS_PAGE, TOP) + 1
    ensures Shows(m1, r, ImageView(m0, image)) && ReadOnly(m1, r, TOP, KERNEL_ENTRIES) && AbsentIn(m1, r, from, to)
    ensures Need(m1, r, TOP, STACK_START, STACK_PAGES + 1) == StartNeed(m0, image) - 4 >= 0
  {
    hide Shows, Low, ReadOnly, AbsentIn, MissingTables, PathMissing, Need;
    StackLayout();
    AbsentNeed(m1, r, STACK_START, STACK_PAGES + 1, from, to);
  }

  ghost predicate HoldsWord(mem: Memory, r: nat, a: LinearAddress, k: Index, value: Entry) {
    var w := Walk(mem, r, TOP, a);
    w.present && w.addr < |mem| && mem[w.addr][k] == value
  }

  lemma StartSame(m0: Memory, m1: Memory, image: nat, base: set<nat>)
    requires GoodImage(m0, image, base) && |m1| == |m0| && SameFrames(m0, m1, base)
    ensures StartView(m1, image) == StartView(m0, image)
    ensures StartNeed(m1, image) == StartNeed(m0, image) >= 21
  {
    hide StartView;
    StartFromImage(m0, m1, image, base);
    StartNeedKept(m0, m1, image, base);
  }

  lemma AdmittedLost(apps: Apps, r: nat, app: App)
    requires r !in Spaces(apps)
    ensures Admitted(apps.(lost := apps.lost + {r}), r, app) == Admitted(apps, r, app)
    ensures Admitted(apps, r, app).lost == apps.lost
    ensures apps.lost + {r} != apps.lost
  {
    assert apps.lost + {r} - {r} == apps.lost == apps.lost - {r};
    assert r in apps.lost + {r};
  }

  lemma AdmitInOrder(mem: Memory, r: nat, app: App, images: set<nat>)
    requires app.image in images && Shows(mem, r, app.view) && FromImage(mem, app)
    ensures AppInOrder(mem, r, app, images)
  {
  }

  lemma LiveSpace(mem: Memory, used: set<nat>, apps: Apps, base: set<nat>, images: set<nat>, r: nat)
    requires Consistent(mem, used, apps, base, images) && r in apps.live
    ensures r in Spaces(apps) && r < |mem| && r in used && Space(mem, used, r, TOP, KERNEL_ENTRIES, base)
  {
    SpaceOf(mem, used, apps, base, images, r);
  }

  lemma MapsOne(m0: Memory, u0: set<nat>, m1: Memory, u1: set<nat>, r: nat, base: set<nat>, from: nat, served: bool)
    requires Space(m0, u0, r, TOP, KERNEL_ENTRIES, base)
    requires Compatible(m0, r, TOP, KERNEL_ENTRIES, from, from + 1, true)
    requires MapsPages(m0, u0, m1, u1, r, base, from, from + 1, true, served)
    ensures Setup(m0, u0, m1, u1, r, TOP, KERNEL_ENTRIES, base, from, from + 1, true)
    ensures served ==> Served(m1, r, TOP, KERNEL_ENTRIES, from, from + 1, true)
  {
  }

  lemma RegrownOthers(mem: Memory, used: set<nat>, apps: Apps, base: set<nat>, images: set<nat>, r: nat, mem': Memory)
    requires Consistent(mem, used, apps, base, images) && r in apps.live
    ensures OthersSame(apps, Regrown(apps, r, mem'), r)
  {
    hide System, GoodImage, AppInOrder, Grown;
  }

  lemma RefilledOthers(mem: Memory, used: set<nat>, apps: Apps, base: set<nat>, images: set<nat>, r: nat,
                       a: LinearAddress, data: Frame)
    requires Consistent(mem, used, apps, base, images) && r in apps.live
    ensures OthersSame(apps, WithPage(WithPage(apps, r, a, ZeroFrame()), r, a, data), r)
    ensures WithPage(WithPage(apps, r, a, ZeroFrame()), r, a, data) == WithPage(apps, r, a, data)
    ensures Spaces(WithPage(apps, r, a, data)) == Spaces(apps)
  {
    hide System, GoodImage, AppInOrder;
    var v := apps.live[r].view;
    assert v.first[a := ZeroFrame()][a := data] == v.first[a := data];
    assert WithPage(WithPage(apps, r, a, ZeroFrame()), r, a, data).live == WithPage(apps, r, a, data).live;
  }

  lemma LoggedOthers(apps0: Apps, apps: Apps, r: nat, store: Store)
    requires OthersSame(apps0, apps, r) && r in apps.live
    ensures OthersSame(apps0, Logged(apps, r, store), r) && Spaces(Logged(apps, r, store)) == Spaces(apps)
    ensures Logged(apps, r, store).lost == apps.lost && r in Logged(apps, r, store).live
  {
    assert Spaces(Logged(apps, r, store)) == Spaces(apps);
  }

  /** Nothing was stored to a page that is absent, and it is no page of the image. */
  lemma Untouched(mem: Memory, used: set<nat>, apps: Apps, base: set<nat>, images: set<nat>, r: nat, a: LinearAddress)
    requires Consistent(mem, used, apps, base, images) && r in apps.live && KERNEL_ENTRIES <= a.pml4
    requires !Walk(mem, r, TOP, a).present
    ensures forall i :: 0 <= i < |apps.live[r].view.log| ==> apps.live[r].view.log[i].page != a
    ensures !Shared(mem, apps.live[r].image, a)
  {
    hide Walk, Shared, Consistent, GoodImage;
    LiveIs(mem, used, apps, base, images, r);
    SeenAt(mem, r, apps.live[r].view, a);
    ProperPages(mem, r, apps.live[r].view);
  }

  lemma StillApart(mem: Memory, used: set<nat>, mem': Memory, apps: Apps, base: set<nat>, images: set<nat>, r: nat,
                   a: LinearAddress)
    requires Consistent(mem, used, apps, base, images) && r in apps.live && !Shared(mem, apps.live[r].image, a)
    requires |mem'| == |mem| && SameFrames(mem, mem', base)
    ensures !Shared(mem', apps.live[r].image, a)
  {
    hide Shared, Consistent;
    LiveIs(mem, used, apps, base, images, r);
    ImageApart(mem, mem', apps.live[r], base, a);
  }

  /**
   In plain addresses: the word at vaddr of the page at vaddr is the one stored; if the page was absent, the rest of it
   holds what it holds at first.
   */
  ghost predicate StoredPlainly(m0: Memory, m1: Memory, r: nat, vaddr: nat, regions: Regions, value: Entry) {
    var page := LinearAddress(vaddr / 0x80_0000_0000 % 512, vaddr / 0x4000_0000 % 512, vaddr / 0x20_0000 % 512,
                              vaddr / 0x1000 % 512);
    var w := Walk(m1, r, TOP, page);
    && w.present && w.addr < |m1| && m1[w.addr][vaddr % 0x1000 / 8] == value
    && (!Walk(m0, r, TOP, page).present ==> StoredOver(m1[w.addr], regions, vaddr, value))
  }

  lemma StorePlain(m0: Memory, m1: Memory, m2: Memory, r: nat, vaddr: nat, regions: Regions, value: Entry, f: nat)
    requires f < |m1| && m2 == m1[f := m1[f][WordAt(vaddr) := value]]
    requires Walk(m2, r, TOP, PageAt(vaddr)).present && Walk(m2, r, TOP, PageAt(vaddr)).addr == f
    requires !Walk(m0, r, TOP, PageAt(vaddr)).present ==> FirstContents(m1[f], regions, vaddr)
    ensures StoredPlainly(m0, m2, r, vaddr, regions, value)
  {
    hide FirstContents, Walk, StoredOver;
    PageAtIs(vaddr);
    StoreOver(m1[f], regions, vaddr, value);
  }

  lemma LoggedKeys(apps: Apps, r: nat, store: Store)
    requires r in apps.live
    ensures Logged(apps, r, store).live.Keys == apps.live.Keys && Logged(apps, r, store).lost == apps.lost
  {
  }

  lemma StoreOver(page: Frame, regions: Regions, vaddr: nat, value: Entry)
    ensures FirstContents(page, regions, vaddr) ==>
      StoredOver(page[vaddr % 0x1000 / 8 := value], regions, vaddr, value)
  {
    hide FirstContents;
  }

  lemma PageAtIs(vaddr: nat)
    ensures PageAt(vaddr) == LinearAddress(vaddr / 0x80_0000_0000 % 512, vaddr / 0x4000_0000 % 512,
                                           vaddr / 0x20_0000 % 512, vaddr / 0x1000 % 512)
    ensures WordAt(vaddr) == vaddr % 0x1000 / 8
  {
  }

  /** After a served fault the page holds what belongs there at first. */
  lemma FaultFills(mem: Memory, used: set<nat>, apps0: Apps, apps: Apps, base: set<nat>, images: set<nat>, r: nat,
                   vaddr: nat, regions: Regions)
    requires Consistent(mem, used, apps, base, images) && r in apps0.live && InitialPage(regions, vaddr).Some?
    requires apps == WithPage(apps0, r, PageAt(vaddr), InitialPage(regions, vaddr).value)
    requires forall i :: 0 <= i < |apps0.live[r].view.log| ==> apps0.live[r].view.log[i].page != PageAt(vaddr)
    ensures var w := Walk(mem, r, TOP, PageAt(vaddr));
      w.present && w.addr < |mem| && FirstContents(mem[w.addr], regions, vaddr)
  {
    hide Consistent, Walk, InitialPage, FirstContents, PageAt;
    InitialContents(regions, vaddr);
    HoldsFirst(mem, used, apps, base, images, r, PageAt(vaddr));
  }

  lemma InitialCases(regions: Regions, vaddr: nat)
    ensures InitialPage(regions, vaddr).Some? <==>
      Demanded(regions, vaddr) || FindMapping(regions.fileMaps, vaddr).Some?
  {
  }

  lemma MoreFree(used: set<nat>, used': set<nat>, begin: nat, end: nat)
    requires used' <= used
    ensures |MemoryManager.FreeFrames(used', begin, end)| >= |MemoryManager.FreeFrames(used, begin, end)|
  {
    Smaller(MemoryManager.FreeFrames(used, begin, end), MemoryManager.FreeFrames(used', begin, end));
  }

  lemma Smaller(a: set<nat>, b: set<nat>)
    requires a <= b
    ensures |a| <= |b|
  {
    assert b == a + (b - a);
  }
}
