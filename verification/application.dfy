/**
 Applications as their images and stores make them up: the bookkeeping of a run, and the facts that keep the
 frames of the system accounted for and what each application sees apart from the others.
 */
module Application {
  import opened Basics
  import opened Errors
  import opened PageTable
  import opened PageMapping
  import opened SetupProof
  import opened Permission
  import opened Shadow
  import opened FrameCount
  import opened CopyOnWrite
  import opened CleanProof
  import opened CopyProof
  import opened Paging
  import opened AddressSpace
  import opened Addresses
  import opened FileRegions
  import opened PageContents

  const ARGS_PAGE := LinearAddress(511, 511, 511, 511)
  const STACK_START := LinearAddress(511, 511, 511, 495)
  const STACK_PAGES: nat := 16

  /** The arguments lie in the last page of all, and the stack begins sixteen pages below it. */
  lemma StackAddresses()
    ensures PageAt(0xffff_ffff_ffff_f000) == ARGS_PAGE
    ensures PageAt(0xffff_ffff_ffff_f000 - STACK_PAGES * 0x1000) == STACK_START
  {
  }

  /** A running application: the image it was started from, and what it sees. */
  datatype App = App(image: nat, view: View)

  /**
   Bookkeeping of a run: the live applications by their top tables, and the spaces whose start failed half
   way.  The kernel never gives the frames of those back.
   */
  datatype Apps = Apps(live: map<nat, App>, lost: set<nat>)

  function Spaces(apps: Apps): set<nat> {
    apps.live.Keys + apps.lost
  }

  /** The pages of an image stay below the argument and stack pages. */
  ghost predicate ClearOfStack(mem: Memory, image: nat) {
    forall b: LinearAddress :: Shared(mem, image, b) ==> Low(b, TOP) < Low(STACK_START, TOP)
  }

  ghost predicate GoodImage(mem: Memory, image: nat, base: set<nat>) {
    && Image(mem, image, TOP, KERNEL_ENTRIES, base)
    && CanCopy(mem, image, TOP, KERNEL_ENTRIES)
    && ClearOfStack(mem, image)
  }

  /** The application has the pages of its image, with the contents they have there. */
  ghost predicate FromImage(mem: Memory, app: App) {
    forall b: LinearAddress :: Shared(mem, app.image, b) ==>
      b in app.view.first && app.view.first[b] == ImagePage(mem, app.image, b)
  }

  ghost predicate AppInOrder(mem: Memory, r: nat, app: App, images: set<nat>) {
    app.image in images && Shows(mem, r, app.view) && FromImage(mem, app)
  }

  ghost predicate Consistent(mem: Memory, used: set<nat>, apps: Apps, base: set<nat>, images: set<nat>) {
    && System(mem, used, Spaces(apps), base)
    && apps.live.Keys !! apps.lost
    && (forall i :: i in images ==> GoodImage(mem, i, base))
    && forall r :: r in apps.live ==> AppInOrder(mem, r, apps.live[r], images)
  }

  /** Applications other than the one at r run on as they were. */
  ghost predicate OthersSame(apps: Apps, apps': Apps, r: nat) {
    && apps'.live.Keys !! apps'.lost
    && forall s :: s in apps'.live && s != r ==> s in apps.live && apps'.live[s] == apps.live[s]
  }

  // ----- What one application does -----

  lemma GoodImageKept(mem: Memory, mem': Memory, image: nat, base: set<nat>)
    requires GoodImage(mem, image, base) && |mem'| == |mem| && SameFrames(mem, mem', base)
    ensures GoodImage(mem', image, base)
  {
    ImageKept(mem, mem', image, base);
  }

  lemma FromImageKept(mem: Memory, mem': Memory, app: App, base: set<nat>)
    requires GoodImage(mem, app.image, base) && |mem'| == |mem| && SameFrames(mem, mem', base)
    requires FromImage(mem, app)
    ensures FromImage(mem', app)
  {
    ImageKept(mem, mem', app.image, base);
  }

  /** What one space did leaves the run consistent if it is consistent for that space. */
  lemma KeepOthers(mem: Memory, used: set<nat>, mem': Memory, used': set<nat>, apps: Apps, apps': Apps,
                   base: set<nat>, images: set<nat>, r: nat)
    requires Consistent(mem, used, apps, base, images)
    requires Local(mem, used, mem', used', Spaces(apps'), base, r)
    requires OthersSame(apps, apps', r)
    requires r in apps'.live ==> AppInOrder(mem', r, apps'.live[r], images)
    ensures Consistent(mem', used', apps', base, images)
  {
    hide System, Shows, SamePages, SameFrames, Image, FromImage;
    forall i | i in images ensures GoodImage(mem', i, base) {
      GoodImageKept(mem, mem', i, base);
    }
    forall s | s in apps'.live && s != r ensures AppInOrder(mem', s, apps'.live[s], images) {
      assert AppInOrder(mem, s, apps.live[s], images);
      ShowsKept(mem, mem', s, apps.live[s].view);
      FromImageKept(mem, mem', apps.live[s], base);
    }
  }

  lemma SystemOf(mem: Memory, used: set<nat>, apps: Apps, base: set<nat>, images: set<nat>)
    requires Consistent(mem, used, apps, base, images)
    ensures System(mem, used, Spaces(apps), base)
  {
  }

  lemma SpaceOf(mem: Memory, used: set<nat>, apps: Apps, base: set<nat>, images: set<nat>, r: nat)
    requires Consistent(mem, used, apps, base, images) && r in Spaces(apps)
    ensures Space(mem, used, r, TOP, KERNEL_ENTRIES, base) && r < |mem| && r in used
  {
    SpaceFrames(mem, used, Spaces(apps), base, r);
    TableInUse(mem, used, r, TOP, KERNEL_ENTRIES, base);
  }

  lemma LiveIs(mem: Memory, used: set<nat>, apps: Apps, base: set<nat>, images: set<nat>, r: nat)
    requires Consistent(mem, used, apps, base, images) && r in apps.live
    ensures Shows(mem, r, apps.live[r].view) && FromImage(mem, apps.live[r])
    ensures apps.live[r].image in images && GoodImage(mem, apps.live[r].image, base)
    ensures r in Spaces(apps)
  {
    hide Shows, FromImage, GoodImage, System;
    assert AppInOrder(mem, r, apps.live[r], images);
  }

  lemma LostNotLive(mem: Memory, used: set<nat>, apps: Apps, base: set<nat>, images: set<nat>, r: nat)
    requires Consistent(mem, used, apps, base, images) && r in apps.lost
    ensures r !in apps.live && r in Spaces(apps)
  {
  }

  lemma ImageOf(mem: Memory, used: set<nat>, apps: Apps, base: set<nat>, images: set<nat>, image: nat)
    requires Consistent(mem, used, apps, base, images) && image in images
    ensures GoodImage(mem, image, base) && Image(mem, image, TOP, KERNEL_ENTRIES, base)
    ensures CanCopy(mem, image, TOP, KERNEL_ENTRIES) && ClearOfStack(mem, image)
  {
  }

  lemma BaseInMemory(mem: Memory, used: set<nat>, apps: Apps, base: set<nat>, images: set<nat>)
    requires Consistent(mem, used, apps, base, images)
    ensures forall f :: f in base ==> f < |mem|
  {
  }

  lemma LocalBase(mem: Memory, used: set<nat>, mem': Memory, used': set<nat>, spaces: set<nat>, base: set<nat>, r: nat)
    requires Local(mem, used, mem', used', spaces, base, r)
    ensures |mem'| == |mem| && SameFrames(mem, mem', base)
  {
  }

  lemma SameFramesTrans(m0: Memory, m1: Memory, m2: Memory, base: set<nat>)
    requires SameFrames(m0, m1, base) && SameFrames(m1, m2, base) && |m0| == |m1| == |m2|
    ensures SameFrames(m0, m2, base)
  {
  }

  lemma SelfLocal(mem: Memory, used: set<nat>, apps: Apps, base: set<nat>, images: set<nat>, r: nat)
    requires Consistent(mem, used, apps, base, images)
    ensures Local(mem, used, mem, used, Spaces(apps), base, r)
  {
    hide Space, Shows, GoodImage, SamePages, FromImage;
    forall s | s in Spaces(apps) ensures SamePages(mem, mem, s) {
      SpaceFrames(mem, used, Spaces(apps), base, s);
      Bystander(mem, used, mem, used, base, s);
    }
  }

  lemma LocalTrans(m0: Memory, u0: set<nat>, m1: Memory, u1: set<nat>, m2: Memory, u2: set<nat>,
                   spaces: set<nat>, base: set<nat>, r: nat)
    requires Local(m0, u0, m1, u1, spaces, base, r) && Local(m1, u1, m2, u2, spaces, base, r)
    requires forall f :: f in base ==> f < |m0|
    ensures Local(m0, u0, m2, u2, spaces, base, r)
  {
    hide System;
    forall s | s in spaces && s != r ensures SamePages(m0, m2, s) {
      SamePagesTrans(m0, m1, m2, s);
    }
  }

  lemma SamePagesTrans(m0: Memory, m1: Memory, m2: Memory, s: nat)
    requires SamePages(m0, m1, s) && SamePages(m1, m2, s)
    ensures SamePages(m0, m2, s)
  {
    forall b: LinearAddress | KERNEL_ENTRIES <= Part(b, TOP) ensures SamePageThrough(m0, m2, s, TOP, b) {
      assert SamePageThrough(m0, m1, s, TOP, b) && SamePageThrough(m1, m2, s, TOP, b);
    }
  }

  /** The current top table is the kernel's or that of a space, so it is in use. */
  lemma CurrentInUse(mem: Memory, used: set<nat>, apps: Apps, base: set<nat>, images: set<nat>, cr3: nat)
    requires Consistent(mem, used, apps, base, images) && cr3 in base + Spaces(apps)
    ensures cr3 in used
  {
    if cr3 !in base {
      SpaceOf(mem, used, apps, base, images, cr3);
    }
  }

  // ----- Single pages -----

  /** The pages of a range from a's page on, one page long, are that page. */
  lemma {:induction false} LowInjective(a: LinearAddress, b: LinearAddress, level: nat)
    requires Low(a, level) == Low(b, level)
    ensures SamePage(a, b, level)
  {
    if level > 0 {
      LowBound(a, level - 1);
      InSlot(a, b, level);
      LowInjective(a, b, level - 1);
    }
  }

  lemma LowEqual(a: LinearAddress, b: LinearAddress)
    requires Low(a, TOP) == Low(b, TOP)
    ensures a == b
  {
    LowInjective(a, b, TOP);
    SamePageEqual(a, b);
  }

  lemma OnePageCompatible(mem: Memory, r: nat, a: LinearAddress, writable: bool)
    requires !Walk(mem, r, TOP, a).present
    ensures Compatible(mem, r, TOP, KERNEL_ENTRIES, Low(a, TOP), Low(a, TOP) + 1, writable)
  {
    forall b: LinearAddress | KERNEL_ENTRIES <= Part(b, TOP) && InRange(b, TOP, Low(a, TOP), Low(a, TOP) + 1)
      ensures var w := Walk(mem, r, TOP, b); w.present ==> w.writable == writable
    {
      LowEqual(a, b);
    }
  }

  /** The frame a page of a space reaches can be stored into. */
  lemma PageFrame(mem: Memory, used: set<nat>, base: set<nat>, r: nat, a: LinearAddress)
    requires Space(mem, used, r, TOP, KERNEL_ENTRIES, base) && KERNEL_ENTRIES <= a.pml4
    requires Walk(mem, r, TOP, a).present
    ensures Walk(mem, r, TOP, a).addr < |mem|
  {
    WalkReaches(mem, r, TOP, KERNEL_ENTRIES, base, a);
  }

  lemma SeenAt(mem: Memory, r: nat, v: View, a: LinearAddress)
    requires Shows(mem, r, v) && KERNEL_ENTRIES <= a.pml4
    ensures a in v.first <==> Walk(mem, r, TOP, a).present
    ensures a in v.first ==>
      Walk(mem, r, TOP, a).addr < |mem| && forall k: Index :: mem[Walk(mem, r, TOP, a).addr][k] == Seen(v, a, k)
  {
    assert KERNEL_ENTRIES <= Part(a, TOP);
    assert ShowsPage(mem, r, v, a);
  }

  lemma SameWalkAt(mem: Memory, mem': Memory, r: nat, a: LinearAddress)
    requires SameWalks(mem, mem', r, TOP, KERNEL_ENTRIES) && KERNEL_ENTRIES <= a.pml4
    ensures Walk(mem', r, TOP, a) == Walk(mem, r, TOP, a)
  {
    assert KERNEL_ENTRIES <= Part(a, TOP);
  }

  // ----- Starting -----

  lemma NewSpace(m0: Memory, u0: set<nat>, m1: Memory, u1: set<nat>, apps: Apps, base: set<nat>, images: set<nat>,
                 r: nat)
    requires Consistent(m0, u0, apps, base, images)
    requires r !in u0 && r < |m0| == |m1| && u1 == u0 + {r}
    requires forall f :: 0 <= f < |m0| && f != r ==> m1[f] == m0[f]
    requires forall i: Index :: KERNEL_ENTRIES <= i ==> m1[r][i] == ZERO
    ensures var apps' := apps.(lost := apps.lost + {r});
            && Consistent(m1, u1, apps', base, images)
            && Local(m0, u0, m1, u1, Spaces(apps'), base, r)
    ensures Space(m1, u1, r, TOP, KERNEL_ENTRIES, base) && EmptyFrom(m1, r, KERNEL_ENTRIES) && r !in Spaces(apps)
  {
    hide Space, Shows, GoodImage, FromImage;
    var apps' := apps.(lost := apps.lost + {r});
    assert Spaces(apps') == Spaces(apps) + {r};
    StartLocal(m0, u0, m1, u1, Spaces(apps), base, r);
    KeepOthers(m0, u0, m1, u1, apps, apps', base, images, r);
    SpaceFrames(m1, u1, Spaces(apps'), base, r);
  }

  lemma CopyOwns(m0: Memory, u0: set<nat>, m1: Memory, u1: set<nat>, base: set<nat>, r: nat)
    requires EmptyFrom(m0, r, KERNEL_ENTRIES)
    requires CopyGrows(m0, u0, m1, u1, r, TOP, KERNEL_ENTRIES, base)
    ensures Grows(m0, u0, m1, u1, r, TOP, KERNEL_ENTRIES, base)
    ensures Own(m1, r, TOP, KERNEL_ENTRIES) == Own(m0, r, TOP, KERNEL_ENTRIES) + (u1 - u0)
  {
    EmptyOwns(m0, r, TOP, KERNEL_ENTRIES);
  }

  lemma SetupGrows(m0: Memory, u0: set<nat>, m1: Memory, u1: set<nat>, base: set<nat>, r: nat, from: nat, to: nat)
    requires Setup(m0, u0, m1, u1, r, TOP, KERNEL_ENTRIES, base, from, to, true)
    ensures Grows(m0, u0, m1, u1, r, TOP, KERNEL_ENTRIES, base) && |m1| == |m0|
    ensures Own(m1, r, TOP, KERNEL_ENTRIES) == Own(m0, r, TOP, KERNEL_ENTRIES) + (u1 - u0)
    ensures Mapped(m0, u0, m1, u1, r, TOP, KERNEL_ENTRIES, from, to, true)
  {
  }

  /** A space that is not live grew by what became used. */
  lemma GrowLost(m0: Memory, u0: set<nat>, m1: Memory, u1: set<nat>, apps: Apps, base: set<nat>, images: set<nat>,
                 r: nat)
    requires Consistent(m0, u0, apps, base, images) && r in apps.lost
    requires Grows(m0, u0, m1, u1, r, TOP, KERNEL_ENTRIES, base)
    requires Own(m1, r, TOP, KERNEL_ENTRIES) == Own(m0, r, TOP, KERNEL_ENTRIES) + (u1 - u0)
    ensures Consistent(m1, u1, apps, base, images) && Local(m0, u0, m1, u1, Spaces(apps), base, r)
    ensures |m1| == |m0| && SameFrames(m0, m1, base) && Space(m1, u1, r, TOP, KERNEL_ENTRIES, base)
  {
    hide Consistent, System, Local, Space, Grows, SameFrames;
    SystemOf(m0, u0, apps, base, images);
    LostNotLive(m0, u0, apps, base, images, r);
    GrowLocal(m0, u0, m1, u1, Spaces(apps), base, r);
    LocalBase(m0, u0, m1, u1, Spaces(apps), base, r);
    SelfSame(m0, u0, apps, base, images, r);
    KeepOthers(m0, u0, m1, u1, apps, apps, base, images, r);
    SpaceOf(m1, u1, apps, base, images, r);
  }

  lemma SelfSame(mem: Memory, used: set<nat>, apps: Apps, base: set<nat>, images: set<nat>, r: nat)
    requires Consistent(mem, used, apps, base, images)
    ensures OthersSame(apps, apps, r)
  {
  }

  ghost predicate AbsentIn(mem: Memory, r: nat, from: nat, to: nat) {
    forall b: LinearAddress :: KERNEL_ENTRIES <= Part(b, TOP) && InRange(b, TOP, from, to) ==>
        !Walk(mem, r, TOP, b).present
  }

  /** The pages of the argument and stack range. */
  ghost predicate InStack(b: LinearAddress) {
    KERNEL_ENTRIES <= b.pml4 && InRange(b, TOP, Low(STACK_START, TOP), Low(ARGS_PAGE, TOP) + 1)
  }

  /** Copying an image into a new space. */
  lemma LoadStep(m0: Memory, u0: set<nat>, m1: Memory, u1: set<nat>, apps: Apps, base: set<nat>, images: set<nat>,
                 r: nat)
    requires Consistent(m0, u0, apps, base, images) && r in apps.lost
    requires EmptyFrom(m0, r, KERNEL_ENTRIES)
    requires CopyGrows(m0, u0, m1, u1, r, TOP, KERNEL_ENTRIES, base)
    ensures Consistent(m1, u1, apps, base, images) && Local(m0, u0, m1, u1, Spaces(apps), base, r)
    ensures Space(m1, u1, r, TOP, KERNEL_ENTRIES, base) && |m1| == |m0| && SameFrames(m0, m1, base)
  {
    hide Consistent, Space, CopyGrows, EmptyFrom, Local, SameFrames, Grows;
    CopyOwns(m0, u0, m1, u1, base, r);
    GrowLost(m0, u0, m1, u1, apps, base, images, r);
  }

  /** What a fresh copy shows, and does not show yet. */
  lemma LoadShows(m0: Memory, m1: Memory, r: nat, image: nat, base: set<nat>, from: nat, to: nat)
    requires GoodImage(m0, image, base) && |m1| == |m0| && SameFrames(m0, m1, base)
    requires Copied(m0, m1, r, image, TOP, KERNEL_ENTRIES) && from == Low(STACK_START, TOP)
    ensures Shows(m1, r, ImageView(m0, image)) && ReadOnly(m1, r, TOP, KERNEL_ENTRIES) && AbsentIn(m1, r, from, to)
  {
    hide Shows, Copied, Image, CanCopy, ClearOfStack, SameFrames, Low, ReadOnly, AbsentIn;
    ShowsCopy(m0, m1, r, image, base);
    CopyReadOnly(m0, m1, r, image);
    StackAbsent(m0, m1, r, image, from, to);
  }

  lemma CopyReadOnly(m0: Memory, m1: Memory, r: nat, image: nat)
    requires Copied(m0, m1, r, image, TOP, KERNEL_ENTRIES)
    ensures ReadOnly(m1, r, TOP, KERNEL_ENTRIES)
  {
  }

  /** The argument and stack pages of a fresh copy are absent: the image keeps clear of them. */
  lemma StackAbsent(m0: Memory, m1: Memory, r: nat, image: nat, from: nat, to: nat)
    requires ClearOfStack(m0, image) && Copied(m0, m1, r, image, TOP, KERNEL_ENTRIES) && from == Low(STACK_START, TOP)
    ensures AbsentIn(m1, r, from, to)
  {
    forall b: LinearAddress | KERNEL_ENTRIES <= Part(b, TOP) && InRange(b, TOP, from, to)
      ensures !Walk(m1, r, TOP, b).present
    {
      assert !Shared(m0, image, b);
    }
  }

  /** In a fresh copy pages of a range are absent exactly if the image shares none of them. */
  lemma CopyAbsentIff(m0: Memory, m1: Memory, r: nat, image: nat, from: nat, to: nat)
    requires Copied(m0, m1, r, image, TOP, KERNEL_ENTRIES)
    ensures AbsentIn(m1, r, from, to) <==> forall b: LinearAddress :: Shared(m0, image, b) ==>
        !InRange(b, TOP, from, to)
  {
    forall b: LinearAddress | KERNEL_ENTRIES <= Part(b, TOP)
      ensures Walk(m1, r, TOP, b).present <==> Shared(m0, image, b)
    {
    }
    if AbsentIn(m1, r, from, to) {
      forall b: LinearAddress | Shared(m0, image, b) ensures !InRange(b, TOP, from, to) {
        assert KERNEL_ENTRIES <= Part(b, TOP);
      }
    }
  }

  lemma SameTable(a: LinearAddress, b: LinearAddress, pages: nat)
    requires a.pml4 == b.pml4 && a.pdp == b.pdp && a.dir == b.dir && a.page == b.page + pages
    ensures Low(a, TOP) == Low(b, TOP) + pages
  {
    SlotStartTimes(a.page, 1);
    SlotStartTimes(b.page, 1);
    assert Low(a, 1) == Low(b, 1) + pages;
    assert Low(a, 2) == Low(b, 2) + pages;
    assert Low(a, 3) == Low(b, 3) + pages;
  }

  lemma StackLayout()
    ensures Low(ARGS_PAGE, TOP) == Low(STACK_START, TOP) + STACK_PAGES
  {
    hide Low;
    SameTable(ARGS_PAGE, STACK_START, STACK_PAGES);
  }

  // ----- What a start takes -----

  /** The tables missing on the way to a page in a copy of an image. */
  ghost function PathMissing(mem: Memory, image: nat, level: nat, lo: nat, a: LinearAddress): nat
    decreases level
  {
    if level <= 1 || image >= |mem| then 0
    else if Part(a, level) == FirstPresent(mem[image], lo)
    then PathMissing(mem, mem[image][Part(a, level)].addr, level - 1, 0, a)
    else level - 1
  }

  lemma {:induction false} PathMissingIs(mem: Memory, mem': Memory, dest: nat, src: nat, level: nat, lo: nat,
                                         a: LinearAddress)
    requires PathTables(mem, mem', dest, src, level, lo) && lo <= Part(a, level)
    ensures MissingTables(mem', dest, level, a) == PathMissing(mem, src, level, lo, a)
    decreases level
  {
    if level > 1 && Part(a, level) == FirstPresent(mem[src], lo) {
      assert mem'[dest][Part(a, level)].present;
      PathMissingIs(mem, mem', mem'[dest][Part(a, level)].addr, mem[src][Part(a, level)].addr, level - 1, 0, a);
    }
  }

  lemma {:induction false} PathMissingKept(mem: Memory, mem': Memory, image: nat, level: nat, lo: nat, a: LinearAddress,
                                           base: set<nat>)
    requires Image(mem, image, level, lo, base) && |mem'| == |mem| && SameFrames(mem, mem', base)
    requires lo <= Part(a, level)
    ensures PathMissing(mem', image, level, lo, a) == PathMissing(mem, image, level, lo, a)
    ensures PathMissing(mem, image, level, lo, a) <= if level == 0 then 0 else level - 1
    decreases level
  {
    if level > 1 && Part(a, level) == FirstPresent(mem[image], lo) {
      PathMissingKept(mem, mem', mem[image][Part(a, level)].addr, level - 1, 0, a, base);
    }
  }

  /**
   A top table, a table at each lower level, the argument and stack pages, and the tables missing on the way to those.
   */
  ghost function StartNeed(mem: Memory, image: nat): nat {
    1 + 3 + (1 + STACK_PAGES) + PathMissing(mem, image, TOP, KERNEL_ENTRIES, STACK_START)
  }

  lemma StartNeedKept(mem: Memory, mem': Memory, image: nat, base: set<nat>)
    requires GoodImage(mem, image, base) && |mem'| == |mem| && SameFrames(mem, mem', base)
    ensures StartNeed(mem', image) == StartNeed(mem, image)
    ensures 21 <= StartNeed(mem, image) <= 24
  {
    PathMissingKept(mem, mem', image, TOP, KERNEL_ENTRIES, STACK_START, base);
  }

  /** The view an application starts with: its image, and zeroed argument and stack pages. */
  ghost function StartView(mem: Memory, image: nat): View {
    View(imap b: LinearAddress | Shared(mem, image, b) || InStack(b) ::
           if Shared(mem, image, b) then ImagePage(mem, image, b) else ZeroFrame(), [])
  }

  lemma StartViewIs(m0: Memory, m1: Memory, u1: set<nat>, m2: Memory, u2: set<nat>, r: nat, image: nat)
    requires Shows(m1, r, ImageView(m0, image)) && |m2| == |m1|
    requires Mapped(m1, u1, m2, u2, r, TOP, KERNEL_ENTRIES, Low(STACK_START, TOP), Low(ARGS_PAGE, TOP) + 1, true)
    requires AllPresent(m2, r, TOP, KERNEL_ENTRIES, Low(STACK_START, TOP), Low(ARGS_PAGE, TOP) + 1)
    ensures Shows(m2, r, StartView(m0, image))
  {
    hide Low, Shows, Mapped, Grown, Shared, ImagePage, InRange, AllPresent, Walk;
    var v, from, to := ImageView(m0, image), Low(STACK_START, TOP), Low(ARGS_PAGE, TOP) + 1;
    ShowsGrown(m1, u1, m2, u2, r, v, from, to);
    var v', v'' := Grown(v, m2, r), StartView(m0, image);
    forall b: LinearAddress
      ensures b in v'.first <==> b in v''.first
      ensures b in v'.first ==> v'.first[b] == v''.first[b]
    {
      GrownHas(v, m2, r, b);
      if InStack(b) {
        PresentIn(m2, r, b, from, to);
      }
    }
    GrownHas(v, m2, r, STACK_START);
    SameViews(v', v'');
  }

  lemma GrownHas(v: View, mem: Memory, r: nat, b: LinearAddress)
    ensures b in Grown(v, mem, r).first <==> KERNEL_ENTRIES <= b.pml4 && Walk(mem, r, TOP, b).present
    ensures Grown(v, mem, r).log == v.log
  {
  }

  lemma PresentIn(mem: Memory, r: nat, b: LinearAddress, from: nat, to: nat)
    requires AllPresent(mem, r, TOP, KERNEL_ENTRIES, from, to) && KERNEL_ENTRIES <= b.pml4 && InRange(b, TOP, from, to)
    ensures Walk(mem, r, TOP, b).present
  {
    assert KERNEL_ENTRIES <= Part(b, TOP);
  }

  lemma SameViews(v: View, v': View)
    requires v.log == v'.log
    requires forall b: LinearAddress ::
      (b in v.first <==> b in v'.first) && (b in v.first ==> v.first[b] == v'.first[b])
    ensures v == v'
  {
    assert v.first == v'.first;
  }

  lemma StartFromImage(m0: Memory, m1: Memory, image: nat, base: set<nat>)
    requires GoodImage(m0, image, base) && |m1| == |m0| && SameFrames(m0, m1, base)
    ensures FromImage(m1, App(image, StartView(m0, image)))
    ensures StartView(m1, image) == StartView(m0, image)
  {
    hide Image, Shared, ImagePage, CanCopy, ClearOfStack, SameFrames, InStack;
    ImageKept(m0, m1, image, base);
    SameViews(StartView(m1, image), StartView(m0, image));
  }

  /** A space whose start succeeded is live. */
  function Admitted(apps: Apps, r: nat, app: App): Apps {
    Apps(apps.live[r := app], apps.lost - {r})
  }

  lemma Admit(mem: Memory, used: set<nat>, apps: Apps, base: set<nat>, images: set<nat>, r: nat, app: App)
    requires Consistent(mem, used, apps, base, images) && r in apps.lost
    requires AppInOrder(mem, r, app, images)
    ensures Consistent(mem, used, Admitted(apps, r, app), base, images)
    ensures Spaces(Admitted(apps, r, app)) == Spaces(apps)
  {
    hide Shows, GoodImage, System, AppInOrder;
    assert Spaces(Admitted(apps, r, app)) == Spaces(apps);
  }

  // ----- Faults, stores and loads -----

  /** The page a fault at an absent address brings, if it can be served. */
  function InitialPage(regions: Regions, vaddr: nat): (page: Option<Frame>)
    ensures page.Some? <==> InitialBytes(regions, vaddr).Some?
  {
    match InitialBytes(regions, vaddr)
    case Some(bytes) => Some(Packed(bytes))
    case None => None
  }

  lemma DemandedPage(regions: Regions, vaddr: nat)
    requires Demanded(regions, vaddr)
    ensures InitialPage(regions, vaddr) == Some(ZeroFrame())
  {
    PackedZeros(Zeros());
  }

  lemma FilePage(regions: Regions, vaddr: nat, m: FileMapping)
    requires !Demanded(regions, vaddr) && FindMapping(regions.fileMaps, vaddr) == Some(m)
    ensures InitialPage(regions, vaddr) == Some(Packed(PageBytes(ContentOf(regions, m.fd), m, PageOf(vaddr))))
  {
  }

  /**
   In plain addresses, what a byte at an address `at` is at first if a fault at vaddr brought its page: zero in the
   demand region, and for a mapping, the first that vaddr lies in, the byte of the file there, or zero behind its end.
   */
  ghost predicate FirstByte(byte: nat, regions: Regions, vaddr: nat, at: nat) {
    if regions.dpagingBegin <= vaddr < regions.dpagingEnd then byte == 0
    else
      forall j :: 0 <= j < |regions.fileMaps| && Lies(regions.fileMaps, j, vaddr) ==>
        var m := regions.fileMaps[j];
        var offset := at - m.vaddrBegin;
        byte == if m.fd < |regions.files| && 0 <= offset < |regions.files[m.fd]| then regions.files[m.fd][offset] else 0
  }

  /** All bytes of a page, the lowest byte of each word first. */
  ghost predicate FirstContents(page: Frame, regions: Regions, vaddr: nat) {
    forall i :: 0 <= i < 0x1000 ==>
      FirstByte(ByteOf(NumberOf(page[i / 8]), i % 8), regions, vaddr, vaddr - vaddr % 0x1000 + i)
  }

  /** The bytes of one word. */
  ghost predicate FirstWord(value: Entry, regions: Regions, vaddr: nat) {
    forall i :: 0 <= i < 8 ==> FirstByte(ByteOf(NumberOf(value), i), regions, vaddr, vaddr + i)
  }

  /** A page with its first contents, but for the word at vaddr. */
  ghost predicate StoredOver(page: Frame, regions: Regions, vaddr: nat, value: Entry) {
    exists first: Frame :: FirstContents(first, regions, vaddr) && page == first[vaddr % 0x1000 / 8 := value]
  }

  /** The mapping contains the address, and none before it does. */
  predicate Lies(maps: seq<FileMapping>, j: nat, vaddr: nat)
    requires j < |maps|
  {
    && maps[j].vaddrBegin <= vaddr < maps[j].vaddrEnd
    && forall k :: 0 <= k < j ==> !(maps[k].vaddrBegin <= vaddr < maps[k].vaddrEnd)
  }

  lemma {:induction false} LiesFirst(maps: seq<FileMapping>, j: nat, vaddr: nat)
    requires j < |maps| && Lies(maps, j, vaddr)
    ensures FindMapping(maps, vaddr) == Some(maps[j])
  {
    if j > 0 {
      assert !Contains(maps[0], vaddr);
      LiesFirst(maps[1..], j - 1, vaddr);
    }
  }

  lemma InitialByte(regions: Regions, vaddr: nat, bytes: seq<Byte>, i: nat)
    requires InitialBytes(regions, vaddr) == Some(bytes) && i < 0x1000
    ensures FirstByte(bytes[i], regions, vaddr, vaddr - vaddr % 0x1000 + i)
  {
    hide FindMapping, Lies;
    forall j | 0 <= j < |regions.fileMaps| && Lies(regions.fileMaps, j, vaddr)
      ensures FindMapping(regions.fileMaps, vaddr) == Some(regions.fileMaps[j])
    {
      LiesFirst(regions.fileMaps, j, vaddr);
    }
  }

  lemma InitialContents(regions: Regions, vaddr: nat)
    requires InitialPage(regions, vaddr).Some?
    ensures FirstContents(InitialPage(regions, vaddr).value, regions, vaddr)
  {
    hide ByteOf, NumberOf, Packed, FirstByte, InitialBytes;
    var bytes := InitialBytes(regions, vaddr).value;
    forall i | 0 <= i < 0x1000
      ensures FirstByte(ByteOf(NumberOf(Packed(bytes)[i / 8]), i % 8), regions, vaddr, vaddr - vaddr % 0x1000 + i)
    {
      PackedByte(bytes, i);
      InitialByte(regions, vaddr, bytes, i);
    }
  }

  lemma WordOfContents(page: Frame, regions: Regions, vaddr: nat)
    requires FirstContents(page, regions, vaddr) && vaddr % 8 == 0
    ensures FirstWord(page[WordAt(vaddr)], regions, vaddr)
  {
    hide ByteOf, NumberOf, FirstByte, WordAt;
    WordPlace(vaddr);
    var k: nat := WordAt(vaddr);
    forall i | 0 <= i < 8 ensures FirstByte(ByteOf(NumberOf(page[k]), i), regions, vaddr, vaddr + i) {
      var n: nat := 8 * k + i;
      assert n / 8 == k && n % 8 == i && 0 <= n < 0x1000;
    }
  }

  lemma InitialIff(regions: Regions, vaddr: nat)
    ensures InitialPage(regions, vaddr).Some? <==>
      || regions.dpagingBegin <= vaddr < regions.dpagingEnd
      || exists j :: 0 <= j < |regions.fileMaps|
           && regions.fileMaps[j].vaddrBegin <= vaddr < regions.fileMaps[j].vaddrEnd
  {
    hide Packed;
    forall j | 0 <= j < |regions.fileMaps|
      ensures Contains(regions.fileMaps[j], vaddr)
         <==> regions.fileMaps[j].vaddrBegin <= vaddr < regions.fileMaps[j].vaddrEnd
    {
    }
  }

  /** A page nothing was stored to holds what it held at first. */
  lemma HoldsFirst(mem: Memory, used: set<nat>, apps: Apps, base: set<nat>, images: set<nat>, r: nat, a: LinearAddress)
    requires Consistent(mem, used, apps, base, images) && r in apps.live && a in apps.live[r].view.first
    requires forall i :: 0 <= i < |apps.live[r].view.log| ==> apps.live[r].view.log[i].page != a
    ensures Walk(mem, r, TOP, a).present && Walk(mem, r, TOP, a).addr < |mem|
    ensures mem[Walk(mem, r, TOP, a).addr] == apps.live[r].view.first[a]
  {
    hide Walk, FromImage, GoodImage, System;
    var v := apps.live[r].view;
    LiveIs(mem, used, apps, base, images, r);
    ProperPages(mem, r, v);
    SeenAt(mem, r, v, a);
    var page := mem[Walk(mem, r, TOP, a).addr];
    forall k: Index ensures page[k] == v.first[a][k] {
      OverlayNone(v.log, a, k, v.first[a][k]);
    }
    assert page == v.first[a];
  }

  /** An application with another page, that begins with the given contents. */
  ghost function WithPage(apps: Apps, r: nat, a: LinearAddress, page: Frame): Apps
    requires r in apps.live
  {
    var app := apps.live[r];
    apps.(live := apps.live[r := app.(view := app.view.(first := app.view.first[a := page]))])
  }

  /** What a served fault does to what the application has. */
  ghost function Faulted(apps: Apps, r: nat, vaddr: nat, regions: Regions): Apps
    requires r in apps.live
  {
    if PageAt(vaddr) in apps.live[r].view.first || InitialPage(regions, vaddr).None? then apps
    else WithPage(apps, r, PageAt(vaddr), InitialPage(regions, vaddr).value)
  }

  ghost function Logged(apps: Apps, r: nat, store: Store): Apps
    requires r in apps.live
  {
    var app := apps.live[r];
    apps.(live := apps.live[r := app.(view := app.view.(log := app.view.log + [store]))])
  }

  /** What a store that is served does. */
  ghost function StoredTo(apps: Apps, r: nat, vaddr: nat, value: Entry, regions: Regions): Apps
    requires r in apps.live
  {
    Logged(Faulted(apps, r, vaddr, regions), r, Store(PageAt(vaddr), WordAt(vaddr), value))
  }

  ghost function Ended(apps: Apps, r: nat): Apps {
    apps.(live := apps.live - {r})
  }

  ghost function Regrown(apps: Apps, r: nat, mem: Memory): Apps
    requires r in apps.live
  {
    var app := apps.live[r];
    apps.(live := apps.live[r := app.(view := Grown(app.view, mem, r))])
  }

  /** A live space mapped pages that were absent. */
  lemma GrowLive(m0: Memory, u0: set<nat>, m1: Memory, u1: set<nat>, apps: Apps, base: set<nat>, images: set<nat>,
                 r: nat, from: nat, to: nat)
    requires Consistent(m0, u0, apps, base, images) && r in apps.live
    requires Setup(m0, u0, m1, u1, r, TOP, KERNEL_ENTRIES, base, from, to, true)
    ensures Consistent(m1, u1, Regrown(apps, r, m1), base, images) && |m1| == |m0|
    ensures Local(m0, u0, m1, u1, Spaces(apps), base, r) && Spaces(Regrown(apps, r, m1)) == Spaces(apps)
  {
    hide Setup, Shows, Image, Space, System, Local, SameFrames, FromImage, GoodImage, Grown, Mapped, Grows;
    LiveIs(m0, u0, apps, base, images, r);
    SetupGrows(m0, u0, m1, u1, base, r, from, to);
    GrowLocal(m0, u0, m1, u1, Spaces(apps), base, r);
    LocalBase(m0, u0, m1, u1, Spaces(apps), base, r);
    ShowsGrown(m0, u0, m1, u1, r, apps.live[r].view, from, to);
    FromImageKept(m0, m1, apps.live[r], base);
    GrownFromImage(m1, apps.live[r], r);
    assert Spaces(Regrown(apps, r, m1)) == Spaces(apps);
    KeepOthers(m0, u0, m1, u1, apps, Regrown(apps, r, m1), base, images, r);
  }

  lemma GrownFromImage(mem: Memory, app: App, r: nat)
    requires FromImage(mem, app)
    requires forall b: LinearAddress :: b in app.view.first ==>
      b in Grown(app.view, mem, r).first && Grown(app.view, mem, r).first[b] == app.view.first[b]
    ensures FromImage(mem, app.(view := Grown(app.view, mem, r)))
  {
  }

  /** One absent page was mapped: the view grew by that page. */
  lemma GrownByOne(m0: Memory, u0: set<nat>, m1: Memory, u1: set<nat>, r: nat, v: View, base: set<nat>,
                   a: LinearAddress, from: nat)
    requires Shows(m0, r, v) && KERNEL_ENTRIES <= a.pml4 && a !in v.first && from == Low(a, TOP)
    requires Setup(m0, u0, m1, u1, r, TOP, KERNEL_ENTRIES, base, from, from + 1, true)
    requires Served(m1, r, TOP, KERNEL_ENTRIES, from, from + 1, true)
    ensures Grown(v, m1, r) == v.(first := v.first[a := ZeroFrame()])
    ensures Walk(m1, r, TOP, a).present && Walk(m1, r, TOP, a).writable
  {
    hide Low, Shows, Mapped, Grown, Setup, Served, Walk;
    SetupGrows(m0, u0, m1, u1, base, r, from, from + 1);
    ShowsGrown(m0, u0, m1, u1, r, v, from, from + 1);
    ServedFirst(m1, r, a, from);
    GrownHas(v, m1, r, a);
    OneMore(v, Grown(v, m1, r), a, from);
  }

  lemma OneMore(v: View, v': View, a: LinearAddress, from: nat)
    requires from == Low(a, TOP) && a in v'.first && a !in v.first && v'.log == v.log
    requires forall b: LinearAddress :: b in v.first ==> b in v'.first && v'.first[b] == v.first[b]
    requires forall b: LinearAddress :: b in v'.first && b !in v.first ==>
      InRange(b, TOP, from, from + 1) && v'.first[b] == ZeroFrame()
    ensures v' == v.(first := v.first[a := ZeroFrame()])
  {
    hide Low;
    forall b: LinearAddress | b in v'.first && b !in v.first ensures b == a {
      LowEqual(a, b);
    }
    SameViews(v', v.(first := v.first[a := ZeroFrame()]));
  }

  lemma ServedFirst(mem: Memory, r: nat, a: LinearAddress, from: nat)
    requires Served(mem, r, TOP, KERNEL_ENTRIES, from, from + 1, true) && KERNEL_ENTRIES <= a.pml4
    requires from == Low(a, TOP)
    ensures Walk(mem, r, TOP, a).present && Walk(mem, r, TOP, a).writable
  {
    assert KERNEL_ENTRIES <= Part(a, TOP) && InRange(a, TOP, from, from + 1);
  }

  /** A live space got a private copy of a page. */
  lemma CopyOnWriteStep(m0: Memory, u0: set<nat>, m1: Memory, u1: set<nat>, apps: Apps, base: set<nat>,
                        images: set<nat>,
                        r: nat, a: LinearAddress, p: nat)
    requires Consistent(m0, u0, apps, base, images) && r in apps.live
    requires KERNEL_ENTRIES <= a.pml4 && Walk(m0, r, TOP, a).present
    requires PrivateCopy(m0, u0, m1, u1, r, base, a, p)
    ensures Consistent(m1, u1, apps, base, images) && |m1| == |m0|
    ensures Local(m0, u0, m1, u1, Spaces(apps), base, r)
    ensures var w := Walk(m1, r, TOP, a); w.present && w.writable && w.addr == p && p < |m1|
  {
    hide Consistent, Shows, Image, Space, System, Local, SameFrames, PrivateCopy, Grows, Own, Walk, FromImage,
         GoodImage;
    LiveIs(m0, u0, apps, base, images, r);
    SystemOf(m0, u0, apps, base, images);
    PrivateParts(m0, u0, m1, u1, r, base, a, p);
    GrowLocal(m0, u0, m1, u1, Spaces(apps), base, r);
    LocalBase(m0, u0, m1, u1, Spaces(apps), base, r);
    ShowsPrivate(m0, u0, m1, u1, r, base, apps.live[r].view, a, p);
    FromImageKept(m0, m1, apps.live[r], base);
    SelfSame(m0, u0, apps, base, images, r);
    KeepOthers(m0, u0, m1, u1, apps, apps, base, images, r);
  }

  lemma PrivateParts(m0: Memory, u0: set<nat>, m1: Memory, u1: set<nat>, r: nat, base: set<nat>, a: LinearAddress,
                     p: nat)
    requires PrivateCopy(m0, u0, m1, u1, r, base, a, p) && KERNEL_ENTRIES <= a.pml4 && Walk(m0, r, TOP, a).present
    ensures Grows(m0, u0, m1, u1, r, TOP, KERNEL_ENTRIES, base)
    ensures Own(m1, r, TOP, KERNEL_ENTRIES) == Own(m0, r, TOP, KERNEL_ENTRIES) + (u1 - u0)
    ensures var w := Walk(m1, r, TOP, a); w.present && w.writable && w.addr == p && p < |m1|
  {
    SamePageEqual(a, a);
    assert KERNEL_ENTRIES <= Part(a, TOP);
  }

  /** A page that was just mapped is filled by the kernel. */
  lemma FillStep(m1: Memory, m2: Memory, used: set<nat>, apps: Apps, base: set<nat>, images: set<nat>,
                 r: nat, a: LinearAddress, f: nat, data: Frame)
    requires Consistent(m1, used, apps, base, images) && r in apps.live && KERNEL_ENTRIES <= a.pml4
    requires forall i :: 0 <= i < |apps.live[r].view.log| ==> apps.live[r].view.log[i].page != a
    requires !Shared(m1, apps.live[r].image, a)
    requires f == Walk(m1, r, TOP, a).addr && f < |m1| && Walk(m1, r, TOP, a).present && Walk(m1, r, TOP, a).writable
    requires m2 == m1[f := data]
    ensures Consistent(m2, used, WithPage(apps, r, a, data), base, images)
    ensures Local(m1, used, m2, used, Spaces(apps), base, r) && Spaces(WithPage(apps, r, a, data)) == Spaces(apps)
    ensures Walk(m2, r, TOP, a) == Walk(m1, r, TOP, a)
  {
    hide Shows, Image, Space, System, Local, SameFrames, Walk, SameWalks, FromImage, GoodImage, Consistent, Shared;
    LiveIs(m1, used, apps, base, images, r);
    SystemOf(m1, used, apps, base, images);
    SeenAt(m1, r, apps.live[r].view, a);
    StoreLocal(m1, used, m2, Spaces(apps), base, r, a, data);
    LocalBase(m1, used, m2, used, Spaces(apps), base, r);
    ShowsFilled(m1, m2, r, apps.live[r].view, a, data);
    FromImageKept(m1, m2, apps.live[r], base);
    ImageApart(m1, m2, apps.live[r], base, a);
    FilledFromImage(m2, apps.live[r], a, data);
    assert Spaces(WithPage(apps, r, a, data)) == Spaces(apps);
    ViewSame(m1, used, apps, base, images, r, WithPage(apps, r, a, data));
    KeepOthers(m1, used, m2, used, apps, WithPage(apps, r, a, data), base, images, r);
    SameWalkAt(m1, m2, r, a);
  }

  lemma ImageApart(mem: Memory, mem': Memory, app: App, base: set<nat>, a: LinearAddress)
    requires GoodImage(mem, app.image, base) && |mem'| == |mem| && SameFrames(mem, mem', base)
    requires !Shared(mem, app.image, a)
    ensures !Shared(mem', app.image, a)
  {
    ImageKept(mem, mem', app.image, base);
  }

  lemma FilledFromImage(mem: Memory, app: App, a: LinearAddress, data: Frame)
    requires FromImage(mem, app) && !Shared(mem, app.image, a)
    ensures FromImage(mem, app.(view := app.view.(first := app.view.first[a := data])))
  {
  }

  lemma ViewSame(mem: Memory, used: set<nat>, apps: Apps, base: set<nat>, images: set<nat>, r: nat, apps': Apps)
    requires Consistent(mem, used, apps, base, images) && r in apps.live
    requires r in apps'.live && apps' == apps.(live := apps.live[r := apps'.live[r]])
    ensures OthersSame(apps, apps', r)
  {
    hide System, GoodImage, AppInOrder;
  }

  /** A user store into a writable page. */
  lemma StoreStep(m0: Memory, m1: Memory, used: set<nat>, apps: Apps, base: set<nat>, images: set<nat>,
                  r: nat, a: LinearAddress, k: Index, v: Entry, f: nat)
    requires Consistent(m0, used, apps, base, images) && r in apps.live && KERNEL_ENTRIES <= a.pml4
    requires f == Walk(m0, r, TOP, a).addr && f < |m0| && Walk(m0, r, TOP, a).present && Walk(m0, r, TOP, a).writable
    requires m1 == m0[f := m0[f][k := v]]
    ensures Consistent(m1, used, Logged(apps, r, Store(a, k, v)), base, images)
    ensures Local(m0, used, m1, used, Spaces(apps), base, r) && Spaces(Logged(apps, r, Store(a, k, v))) == Spaces(apps)
    ensures Walk(m1, r, TOP, a) == Walk(m0, r, TOP, a)
  {
    hide Shows, Image, Space, System, Local, SameFrames, Walk, SameWalks, FromImage, GoodImage, Consistent;
    LiveIs(m0, used, apps, base, images, r);
    SystemOf(m0, used, apps, base, images);
    SeenAt(m0, r, apps.live[r].view, a);
    StoreLocal(m0, used, m1, Spaces(apps), base, r, a, m0[f][k := v]);
    LocalBase(m0, used, m1, used, Spaces(apps), base, r);
    ShowsStore(m0, m1, r, apps.live[r].view, a, k, v);
    FromImageKept(m0, m1, apps.live[r], base);
    LoggedFromImage(m1, apps.live[r], Store(a, k, v));
    var apps' := Logged(apps, r, Store(a, k, v));
    assert Spaces(apps') == Spaces(apps);
    ViewSame(m0, used, apps, base, images, r, apps');
    KeepOthers(m0, used, m1, used, apps, apps', base, images, r);
    SameWalkAt(m0, m1, r, a);
  }

  lemma LoggedFromImage(mem: Memory, app: App, store: Store)
    requires FromImage(mem, app)
    ensures FromImage(mem, app.(view := app.view.(log := app.view.log + [store])))
  {
  }

  // ----- The end -----

  /** A live space gave everything back. */
  lemma EndStep(m0: Memory, u0: set<nat>, m1: Memory, u1: set<nat>, apps: Apps, base: set<nat>, images: set<nat>,
                r: nat, a: LinearAddress)
    requires Consistent(m0, u0, apps, base, images) && r in apps.live
    requires a == LinearAddress(KERNEL_ENTRIES, 0, 0, 0)
    requires Cleaned(m0, u0, m1, u1, r, TOP, a, ENTRIES)
    ensures r in u1 && |m1| == |m0|
    ensures Consistent(m1, u1 - {r}, Ended(apps, r), base, images)
    ensures u1 - {r} == u0 - Frames(m0, r)
    ensures Local(m0, u0, m1, u1 - {r}, Spaces(apps) - {r}, base, r)
  {
    hide Shows, Image, Space, System, Local, SameFrames, GoodImage, Cleaned, FromImage;
    SpaceOf(m0, u0, apps, base, images, r);
    CleanedFromBottom(m0, u0, m1, u1, r, a, base);
    CleanedLength(m0, u0, m1, u1, r, a);
    assert u1 - {r} == u0 - Frames(m0, r);
    EndLocal(m0, u0, m1, u1 - {r}, Spaces(apps), base, r);
    assert Spaces(Ended(apps, r)) == Spaces(apps) - {r};
    KeepOthers(m0, u0, m1, u1 - {r}, apps, Ended(apps, r), base, images, r);
  }

  lemma CleanedLength(m0: Memory, u0: set<nat>, m1: Memory, u1: set<nat>, r: nat, a: LinearAddress)
    requires Cleaned(m0, u0, m1, u1, r, TOP, a, ENTRIES)
    ensures |m1| == |m0|
  {
  }

  /** With no live application, the frames in use are those of base exactly if no start was lost. */
  lemma ReturnedIff(mem: Memory, used: set<nat>, apps: Apps, base: set<nat>, images: set<nat>)
    requires Consistent(mem, used, apps, base, images) && apps.live == map[]
    ensures used == base <==> apps.lost == {}
  {
    if apps.lost == {} {
      AllReturned(mem, used, base);
    } else {
      var r :| r in apps.lost;
      SpaceFrames(mem, used, Spaces(apps), base, r);
      assert r in Frames(mem, r);
    }
  }
}
