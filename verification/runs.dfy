/** Whole runs: any interleaving of starts, stores, loads and ends of applications. */
module Runs {
  import opened PageTable
  import opened CopyProof
  import opened Paging
  import opened AddressSpace
  import opened Application
  import opened Kernels
  import opened Addresses
  import FileRegions

  /** The state of a run: the applications, physical memory, and the number of free frames. */
  datatype Snapshot = Snapshot(apps: Apps, mem: Memory, free: nat)

  /** Frames that are always enough for an event. */
  function Cost(e: Event): nat {
    match e
    case StartApp(_) => 24
    case StoreWord(_, _, _, _) => 4
    case LoadWord(_, _, _) => 4
    case ExitApp(_) => 0
  }

  function CostOf(events: seq<Event>): nat {
    if events == [] then 0 else CostOf(events[..|events| - 1]) + Cost(events[|events| - 1])
  }

  /** The event is about a live application and a word of its own half of the address space. */
  ghost predicate Concerns(apps: Apps, r: nat, vaddr: nat) {
    r in apps.live && UserAddress(vaddr) && vaddr % 8 == 0
  }

  /** What an event does, and, if it is a load, the value it gives. */
  ghost predicate AppStep(s: Snapshot, e: Event, value: Entry, s': Snapshot) {
    && s.free <= s'.free + Cost(e)
    && match e
       case StartApp(image) => StartStep(s, image, s')
       case StoreWord(r, vaddr, v, regions) =>
         if !Concerns(s.apps, r, vaddr) then s'.apps == s.apps
         else if StoreServed(s.mem, r, vaddr, regions, s.free)
         then s'.apps == StoredTo(s.apps, r, vaddr, v, regions)
         else s'.apps == Ended(s.apps, r)
       case LoadWord(r, vaddr, regions) =>
         if !Concerns(s.apps, r, vaddr) then s'.apps == s.apps
         else if LoadServed(s.mem, r, vaddr, regions, s.free)
         then s'.apps == Faulted(s.apps, r, vaddr, regions) && Reads(s'.apps, r, vaddr, value)
         else s'.apps == Ended(s.apps, r)
       case ExitApp(r) =>
         s'.apps == if r in s.apps.live then Ended(s.apps, r) else s.apps
  }

  /**
   A start adds one application, or fails for lack of memory; then a space is lost unless there was no frame at all.
   */
  ghost predicate StartStep(s: Snapshot, image: nat, s': Snapshot) {
    if StartNeed(s.mem, image) <= s.free then
      exists r :: r in s'.apps.live && r !in Spaces(s.apps)
        && s'.apps == Admitted(s.apps, r, App(image, StartView(s.mem, image)))
    else
      && s'.apps.live == s.apps.live && s.apps.lost <= s'.apps.lost
      && (s'.apps.lost == s.apps.lost <==> s.free == 0)
  }

  ghost predicate Reads(apps: Apps, r: nat, vaddr: nat, value: Entry) {
    && r in apps.live && PageAt(vaddr) in apps.live[r].view.first
    && value == Seen(apps.live[r].view, PageAt(vaddr), WordAt(vaddr))
  }

  /** The states before the first event, after each event, and at the end, with the values read. */
  ghost predicate AppTrace(trace: seq<Snapshot>, events: seq<Event>, values: seq<Entry>) {
    && |trace| == |events| + 1 && |values| == |events|
    && forall i :: 0 <= i < |events| ==> AppStep(trace[i], events[i], values[i], trace[i + 1])
  }

  ghost function Snap(k: Kernel): Snapshot
    reads k, k.machine, k.machine.memoryManager, k.machine.memoryManager.allocMap
  {
    Snapshot(k.apps, k.machine.mem, k.machine.Free())
  }

  // ----- What follows for a run -----

  lemma {:induction false} PathMissingFew(mem: Memory, image: nat, level: nat, lo: nat, a: LinearAddress)
    ensures PathMissing(mem, image, level, lo, a) <= if level == 0 then 0 else level - 1
    decreases level
  {
    if level > 1 && image < |mem| && Part(a, level) == FirstPresent(mem[image], lo) {
      PathMissingFew(mem, mem[image][Part(a, level)].addr, level - 1, 0, a);
    }
  }

  /** Events of other applications, whatever they are, do not change what an application has. */
  lemma {:induction false} Undisturbed(trace: seq<Snapshot>, events: seq<Event>, values: seq<Entry>, r: nat)
    requires AppTrace(trace, events, values) && r in trace[0].apps.live
    requires forall i :: 0 <= i < |events| && !events[i].StartApp? ==> events[i].root != r
    ensures r in trace[|events|].apps.live && trace[|events|].apps.live[r] == trace[0].apps.live[r]
    decreases |events|
  {
    hide StartNeed, StartView, StoreServed, LoadServed, Seen;
    if events != [] {
      var n := |events| - 1;
      Undisturbed(trace[..n + 1], events[..n], values[..n], r);
      assert AppStep(trace[n], events[n], values[n], trace[n + 1]);
    }
  }

  /** No space was lost exactly if every start found the frames it takes, or none at all. */
  lemma {:induction false} LostIff(trace: seq<Snapshot>, events: seq<Event>, values: seq<Entry>)
    requires AppTrace(trace, events, values)
    ensures trace[0].apps.lost <= trace[|events|].apps.lost
    ensures trace[|events|].apps.lost == trace[0].apps.lost <==>
            forall i :: 0 <= i < |events| && events[i].StartApp? ==>
              StartNeed(trace[i].mem, events[i].image) <= trace[i].free || trace[i].free == 0
    decreases |events|
  {
    hide StartNeed, StartView, StoreServed, LoadServed, Seen, AppStep;
    if events != [] {
      var n := |events| - 1;
      LostIff(trace[..n + 1], events[..n], values[..n]);
      LostStep(trace[n], events[n], values[n], trace[n + 1]);
      assert forall i :: 0 <= i < n ==> events[..n][i] == events[i] && trace[..n + 1][i] == trace[i];
      assert trace[..n + 1][n] == trace[n];
    }
  }

  lemma LostStep(s: Snapshot, e: Event, value: Entry, s': Snapshot)
    requires AppStep(s, e, value, s')
    ensures s.apps.lost <= s'.apps.lost
    ensures s'.apps.lost == s.apps.lost <==> (e.StartApp? ==> StartNeed(s.mem, e.image) <= s.free || s.free == 0)
  {
    hide StartNeed, StartView, StoreServed, LoadServed, Seen;
    if e.StartApp? && StartNeed(s.mem, e.image) <= s.free {
      var r :| r in s'.apps.live && r !in Spaces(s.apps)
               && s'.apps == Admitted(s.apps, r, App(e.image, StartView(s.mem, e.image)));
      assert s.apps.lost - {r} == s.apps.lost;
    }
  }

  /** With enough free frames for all of its events a run loses none. */
  lemma EnoughMemory(trace: seq<Snapshot>, events: seq<Event>, values: seq<Entry>)
    requires AppTrace(trace, events, values) && CostOf(events) <= trace[0].free
    ensures trace[|events|].apps.lost == trace[0].apps.lost
  {
    hide StartNeed, AppStep, PathMissing;
    forall i | 0 <= i < |events| && events[i].StartApp?
      ensures StartNeed(trace[i].mem, events[i].image) <= trace[i].free
    {
      FreeLeft(trace, events, values, i);
      CostGrows(events, i);
      StartIsFew(trace[i].mem, events[i].image);
    }
    LostIff(trace, events, values);
  }

  lemma StartIsFew(mem: Memory, image: nat)
    ensures StartNeed(mem, image) <= 24
  {
    PathMissingFew(mem, image, TOP, KERNEL_ENTRIES, STACK_START);
  }

  lemma {:induction false} FreeLeft(trace: seq<Snapshot>, events: seq<Event>, values: seq<Entry>, i: nat)
    requires AppTrace(trace, events, values) && i <= |events|
    ensures trace[0].free <= trace[i].free + CostOf(events[..i])
  {
    hide StartStep, StoreServed, LoadServed, Seen;
    if i > 0 {
      FreeLeft(trace, events, values, i - 1);
      assert AppStep(trace[i - 1], events[i - 1], values[i - 1], trace[i]);
      assert events[..i][..i - 1] == events[..i - 1];
    }
  }

  lemma {:induction false} CostGrows(events: seq<Event>, i: nat)
    requires i < |events|
    ensures CostOf(events[..i]) + Cost(events[i]) <= CostOf(events)
    decreases |events|
  {
    var n := |events| - 1;
    if i < n {
      CostGrows(events[..n], i);
      assert events[..n][..i] == events[..i];
    }
  }

  // ----- The run of a kernel -----

  /** One event of a run; events that name no live application do nothing. */
  method Step(kernel: Kernel, e: Event) returns (value: Entry)
    requires kernel.Valid() && (e.StartApp? ==> e.image in kernel.images)
    modifies kernel, kernel.machine, kernel.machine.memoryManager.allocMap
    ensures kernel.Valid() && AppStep(old(Snap(kernel)), e, value, Snap(kernel))
    ensures e.ExitApp? && e.root in old(kernel.apps).live ==>
      kernel.machine.Used() == old(kernel.machine.Used()) - old(Frames(kernel.machine.mem, e.root))
    ensures SameFrames(old(kernel.machine.mem), kernel.machine.mem, kernel.base)
    ensures |kernel.machine.mem| == |old(kernel.machine.mem)|
  {
    hide Consistent, Local, Shows, System, StartNeed, StartView, StoreServed, LoadServed, Seen, SameFrames, Faulted,
         StoredTo,
         Frames, Machine.Free;
    value := ZERO;
    SameFramesRefl(kernel.machine.mem, kernel.base);
    match e {
      case StartApp(image) => StartOne(kernel, image);
      case StoreWord(r, vaddr, v, regions) =>
        if r in kernel.live && UserAddress(vaddr) && vaddr % 8 == 0 {
          StoreOrDie(kernel, r, vaddr, v, regions);
        }
      case LoadWord(r, vaddr, regions) =>
        if r in kernel.live && UserAddress(vaddr) && vaddr % 8 == 0 {
          value := LoadOrDie(kernel, r, vaddr, regions);
        }
      case ExitApp(r) =>
        if r in kernel.live {
          kernel.Exit(r);
        }
    }
  }

  lemma SameFramesRefl(mem: Memory, base: set<nat>)
    ensures SameFrames(mem, mem, base)
  {
  }

  method StartOne(kernel: Kernel, image: nat)
    requires kernel.Valid() && image in kernel.images
    modifies kernel, kernel.machine, kernel.machine.memoryManager.allocMap
    ensures kernel.Valid() && StartStep(old(Snap(kernel)), image, Snap(kernel))
    ensures old(Snap(kernel)).free <= Snap(kernel).free + 24
    ensures SameFrames(old(kernel.machine.mem), kernel.machine.mem, kernel.base)
    ensures |kernel.machine.mem| == |old(kernel.machine.mem)|
  {
    hide Consistent, Local, Shows, System, StartNeed, StartView, SameFrames, Machine.Free;
    ghost var s := Snap(kernel);
    var r := kernel.Start(image);
    if StartNeed(s.mem, image) <= s.free {
      assert kernel.apps == Admitted(s.apps, r.value, App(image, StartView(s.mem, image)));
    }
  }

  /** A store, or the end of an application whose store cannot be served. */
  method StoreOrDie(kernel: Kernel, r: nat, vaddr: nat, v: Entry, regions: FileRegions.Regions)
    requires kernel.Valid() && r in kernel.apps.live && UserAddress(vaddr) && vaddr % 8 == 0
    modifies kernel, kernel.machine, kernel.machine.memoryManager.allocMap
    ensures kernel.Valid()
    ensures kernel.apps ==
      if StoreServed(old(kernel.machine.mem), r, vaddr, regions, old(kernel.machine.Free()))
      then StoredTo(old(kernel.apps), r, vaddr, v, regions) else Ended(old(kernel.apps), r)
    ensures old(kernel.machine.Free()) <= kernel.machine.Free() + 4
    ensures SameFrames(old(kernel.machine.mem), kernel.machine.mem, kernel.base)
    ensures |kernel.machine.mem| == |old(kernel.machine.mem)|
  {
    hide Consistent, Local, Shows, System, StoreServed, SameFrames, Faulted, StoredTo, Frames, Machine.Free;
    ghost var m0, apps0, u0 := kernel.machine.mem, kernel.apps, kernel.machine.Used();
    BaseInMemory(m0, u0, apps0, kernel.base, kernel.images);
    ApartLost(m0, u0, apps0, kernel.base, kernel.images);
    var ok := kernel.UserStore(r, vaddr, v, regions);
    if !ok {
      ghost var m1, apps1 := kernel.machine.mem, kernel.apps;
      kernel.Exit(r);
      EndedSame(apps0, apps1, r);
      SameFramesTrans(m0, m1, kernel.machine.mem, kernel.base);
    }
  }

  /** A load, or the end of an application whose load cannot be served. */
  method LoadOrDie(kernel: Kernel, r: nat, vaddr: nat, regions: FileRegions.Regions)
    returns (value: Entry)
    requires kernel.Valid() && r in kernel.apps.live && UserAddress(vaddr) && vaddr % 8 == 0
    modifies kernel, kernel.machine, kernel.machine.memoryManager.allocMap
    ensures kernel.Valid()
    ensures kernel.apps ==
      if LoadServed(old(kernel.machine.mem), r, vaddr, regions, old(kernel.machine.Free()))
      then Faulted(old(kernel.apps), r, vaddr, regions) else Ended(old(kernel.apps), r)
    ensures LoadServed(old(kernel.machine.mem), r, vaddr, regions, old(kernel.machine.Free())) ==>
      Reads(kernel.apps, r, vaddr, value)
    ensures old(kernel.machine.Free()) <= kernel.machine.Free() + 4
    ensures SameFrames(old(kernel.machine.mem), kernel.machine.mem, kernel.base)
    ensures |kernel.machine.mem| == |old(kernel.machine.mem)|
  {
    hide Consistent, Local, Shows, System, LoadServed, SameFrames, Faulted, Frames, Seen, Machine.Free;
    ghost var m0, apps0, u0 := kernel.machine.mem, kernel.apps, kernel.machine.Used();
    BaseInMemory(m0, u0, apps0, kernel.base, kernel.images);
    ApartLost(m0, u0, apps0, kernel.base, kernel.images);
    var ok;
    ok, value := kernel.UserLoad(r, vaddr, regions);
    if !ok {
      ghost var m1, apps1 := kernel.machine.mem, kernel.apps;
      kernel.Exit(r);
      EndedSame(apps0, apps1, r);
      SameFramesTrans(m0, m1, kernel.machine.mem, kernel.base);
    }
  }

  lemma ApartLost(mem: Memory, used: set<nat>, apps: Apps, base: set<nat>, images: set<nat>)
    requires Consistent(mem, used, apps, base, images)
    ensures apps.live.Keys !! apps.lost
  {
  }

  /** Whatever happened to an application that then ended, it is gone and nothing else changed. */
  lemma EndedSame(apps: Apps, apps': Apps, r: nat)
    requires apps.live.Keys !! apps.lost && OthersSame(apps, apps', r) && apps'.lost == apps.lost
    requires Spaces(apps') == Spaces(apps)
    ensures Ended(apps', r) == Ended(apps, r)
  {
    forall s ensures s in apps.live - {r} <==> s in apps'.live - {r} {
      assert s in Spaces(apps) <==> s in Spaces(apps');
    }
    assert apps'.live - {r} == apps.live - {r};
  }

  /**
   Any run.  Whatever the interleaving, each event does what AppStep says: applications do not disturb each
   other, and every load gives what the application's own image, pages, files and stores make of it.  Images never
   change.  Once no application is live, the frames in use are those in use at first exactly if no start was
   lost, and none is lost if there are enough frames for all events at the beginning.
   */
  method Run(kernel: Kernel, events: seq<Event>) returns (values: seq<Entry>, ghost trace: seq<Snapshot>)
    requires kernel.Valid() && forall e :: e in events && e.StartApp? ==> e.image in kernel.images
    modifies kernel, kernel.machine, kernel.machine.memoryManager.allocMap
    ensures kernel.Valid() && AppTrace(trace, events, values)
    ensures trace[0] == old(Snap(kernel)) && trace[|events|] == Snap(kernel)
    ensures SameFrames(old(kernel.machine.mem), kernel.machine.mem, kernel.base)
    ensures CostOf(events) <= old(kernel.machine.Free()) ==> kernel.apps.lost == old(kernel.apps).lost
    ensures kernel.apps.live == map[] ==> (kernel.machine.Used() == kernel.base <==> kernel.apps.lost == {})
    ensures forall r :: r in kernel.apps.live ==>
      Shows(kernel.machine.mem, r, kernel.apps.live[r].view) && FromImage(kernel.machine.mem, kernel.apps.live[r])
  {
    hide Consistent, Local, Shows, System, AppStep, FromImage, SameFrames, Machine.Free;
    values, trace := [], [Snap(kernel)];
    ghost var m0 := kernel.machine.mem;
    SameFramesRefl(m0, kernel.base);
    var i := 0;
    while i < |events|
      invariant 0 <= i <= |events| && kernel.Valid()
      invariant AppTrace(trace, events[..i], values) && trace[0] == old(Snap(kernel)) && trace[i] == Snap(kernel)
      invariant SameFrames(m0, kernel.machine.mem, kernel.base) && |kernel.machine.mem| == |m0|
    {
      ghost var m1 := kernel.machine.mem;
      var value := Step(kernel, events[i]);
      SameFramesTrans(m0, m1, kernel.machine.mem, kernel.base);
      values, trace := values + [value], trace + [Snap(kernel)];
      i := i + 1;
    }
    assert events[..i] == events;
    if CostOf(events) <= trace[0].free {
      EnoughMemory(trace, events, values);
    }
    AllInOrder(kernel);
  }

  lemma AllInOrder(kernel: Kernel)
    requires kernel.Valid()
    ensures kernel.apps.live == map[] ==> (kernel.machine.Used() == kernel.base <==> kernel.apps.lost == {})
    ensures forall r :: r in kernel.apps.live ==>
      Shows(kernel.machine.mem, r, kernel.apps.live[r].view) && FromImage(kernel.machine.mem, kernel.apps.live[r])
  {
    hide Consistent, Shows, FromImage;
    if kernel.apps.live == map[] {
      ReturnedIff(kernel.machine.mem, kernel.machine.Used(), kernel.apps, kernel.base, kernel.images);
    }
    forall r | r in kernel.apps.live
      ensures Shows(kernel.machine.mem, r, kernel.apps.live[r].view)
      ensures FromImage(kernel.machine.mem, kernel.apps.live[r])
    {
      LiveIs(kernel.machine.mem, kernel.machine.Used(), kernel.apps, kernel.base, kernel.images, r);
    }
  }
}
