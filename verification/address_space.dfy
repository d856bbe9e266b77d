/**
 The life of application address spaces: which frames they own, how they grow, share an image,
 store, and end.  Facts about one space at a time are turned into facts about all of them.
 */
module AddressSpace {
  import opened PageTable
  import opened PageMapping
  import opened CopyOnWrite
  import opened CleanProof
  import opened CopyProof
  import opened Paging

  const TOP: nat := 4

  /** Every frame that a space owns, its top table included. */
  ghost function Frames(mem: Memory, root: nat): set<nat> {
    Own(mem, root, TOP, KERNEL_ENTRIES) + {root}
  }

  /**
   Frames in use are those of base and those of the live spaces; no frame belongs to two spaces,
   and none of base belongs to any.
   */
  ghost predicate System(mem: Memory, used: set<nat>, spaces: set<nat>, base: set<nat>) {
    && base <= used && (forall f :: f in used ==> f < |mem|)
    && (forall r :: r in spaces ==> Space(mem, used, r, TOP, KERNEL_ENTRIES, base))
    && (forall r, s :: r in spaces && s in spaces && r != s ==> Frames(mem, r) !! Frames(mem, s))
    && (forall f :: f in used ==> f in base || Owned(mem, spaces, f))
  }

  ghost predicate Owned(mem: Memory, spaces: set<nat>, f: nat) {
    exists r :: r in spaces && f in Frames(mem, r)
  }

  /** The space at root translates every application page alike and finds the same contents there. */
  ghost predicate SamePages(mem: Memory, mem': Memory, root: nat) {
    forall b: LinearAddress :: KERNEL_ENTRIES <= Part(b, TOP) ==> SamePageThrough(mem, mem', root, TOP, b)
  }

  ghost predicate SameFrames(mem: Memory, mem': Memory, frames: set<nat>) {
    forall f :: f in frames && f < |mem| && f < |mem'| ==> mem'[f] == mem[f]
  }

  /** Nothing changes for a space when its frames and those of base keep their contents. */
  lemma Bystander(mem: Memory, used: set<nat>, mem': Memory, used': set<nat>, base: set<nat>, s: nat)
    requires Space(mem, used, s, TOP, KERNEL_ENTRIES, base) && |mem'| == |mem|
    requires SameFrames(mem, mem', Frames(mem, s)) && SameFrames(mem, mem', base)
    requires Frames(mem, s) <= used' && base <= used' && forall f :: f in used' ==> f < |mem|
    ensures Space(mem', used', s, TOP, KERNEL_ENTRIES, base)
    ensures Frames(mem', s) == Frames(mem, s)
    ensures SamePages(mem, mem', s)
  {
    OwnFrame(mem, mem', s, TOP, KERNEL_ENTRIES, base);
    forall b: LinearAddress | KERNEL_ENTRIES <= Part(b, TOP) ensures SamePageThrough(mem, mem', s, TOP, b) {
      if Walk(mem, s, TOP, b).present {
        WalkReaches(mem, s, TOP, KERNEL_ENTRIES, base, b);
        SlotInOwn(mem, s, TOP, KERNEL_ENTRIES, Part(b, TOP));
      }
    }
  }

  /** What one space does, seen by all: the others and base are untouched. */
  ghost predicate Local(mem: Memory, used: set<nat>, mem': Memory, used': set<nat>,
                        spaces: set<nat>, base: set<nat>, r: nat)
  {
    && |mem'| == |mem|
    && System(mem', used', spaces, base)
    && SameFrames(mem, mem', base)
    && forall s :: s in spaces && s != r ==> SamePages(mem, mem', s)
  }

  lemma OthersKept(mem: Memory, used: set<nat>, mem': Memory, used': set<nat>, spaces: set<nat>, base: set<nat>,
                   r: nat, s: nat)
    requires System(mem, used, spaces, base) && r in spaces && s in spaces && s != r
    requires |mem'| == |mem| && used <= used' && forall f :: f in used' ==> f < |mem|
    requires forall f :: f in used && f < |mem| && f !in Frames(mem, r) ==> mem'[f] == mem[f]
    ensures Space(mem', used', s, TOP, KERNEL_ENTRIES, base)
    ensures Frames(mem', s) == Frames(mem, s)
    ensures SamePages(mem, mem', s)
  {
    assert Space(mem, used, s, TOP, KERNEL_ENTRIES, base);
    assert Space(mem, used, r, TOP, KERNEL_ENTRIES, base);
    Bystander(mem, used, mem', used', base, s);
  }

  /** The system is in order when each space is, and only r's frames may have changed. */
  lemma Assemble(mem: Memory, used: set<nat>, mem': Memory, used': set<nat>, spaces: set<nat>, spaces': set<nat>,
                 base: set<nat>, r: nat)
    requires System(mem, used, spaces, base) && spaces' - {r} <= spaces
    requires base <= used' && forall f :: f in used' ==> f < |mem'|
    requires forall s :: s in spaces' ==> Space(mem', used', s, TOP, KERNEL_ENTRIES, base)
    requires forall s :: s in spaces' && s != r ==> Frames(mem', s) == Frames(mem, s)
    requires r in spaces' ==> forall s :: s in spaces' && s != r ==> Frames(mem', r) !! Frames(mem, s)
    requires forall f :: f in used' ==> f in base || Owned(mem', spaces', f)
    ensures System(mem', used', spaces', base)
  {
    hide Space, Frames, Owned;
  }

  lemma SpaceFrames(mem: Memory, used: set<nat>, spaces: set<nat>, base: set<nat>, s: nat)
    requires System(mem, used, spaces, base) && s in spaces
    ensures Space(mem, used, s, TOP, KERNEL_ENTRIES, base)
    ensures Frames(mem, s) <= used && base !! Frames(mem, s)
  {
  }

  /** A space that grows by owning every newly used frame keeps the whole system in order. */
  lemma GrowLocal(mem: Memory, used: set<nat>, mem': Memory, used': set<nat>, spaces: set<nat>, base: set<nat>, r: nat)
    requires System(mem, used, spaces, base) && r in spaces
    requires Grows(mem, used, mem', used', r, TOP, KERNEL_ENTRIES, base)
    requires Own(mem', r, TOP, KERNEL_ENTRIES) == Own(mem, r, TOP, KERNEL_ENTRIES) + (used' - used)
    ensures Local(mem, used, mem', used', spaces, base, r)
  {
    GrownSpace(mem, used, mem', used', base, r);
    SpaceFrames(mem, used, spaces, base, r);
    ChangeLocal(mem, used, mem', used', spaces, base, r);
  }

  lemma GrownSpace(mem: Memory, used: set<nat>, mem': Memory, used': set<nat>, base: set<nat>, r: nat)
    requires Grows(mem, used, mem', used', r, TOP, KERNEL_ENTRIES, base)
    requires Own(mem', r, TOP, KERNEL_ENTRIES) == Own(mem, r, TOP, KERNEL_ENTRIES) + (used' - used)
    ensures Space(mem', used', r, TOP, KERNEL_ENTRIES, base)
    ensures Frames(mem', r) == Frames(mem, r) + (used' - used)
    ensures forall f :: f in used' ==> f < |mem'|
    ensures forall f :: f in used && f < |mem| && f !in Frames(mem, r) ==> mem'[f] == mem[f]
  {
    assert NewBase(base, used, used', Own(mem', r, TOP, KERNEL_ENTRIES)) == base;
  }

  /** Only the frames of r changed, and r took over what became used. */
  lemma ChangeLocal(mem: Memory, used: set<nat>, mem': Memory, used': set<nat>, spaces: set<nat>, base: set<nat>,
                    r: nat)
    requires System(mem, used, spaces, base) && r in spaces
    requires |mem'| == |mem| && used <= used' && forall f :: f in used' ==> f < |mem|
    requires Space(mem', used', r, TOP, KERNEL_ENTRIES, base)
    requires Frames(mem', r) == Frames(mem, r) + (used' - used)
    requires forall f :: f in used && f < |mem| && f !in Frames(mem, r) ==> mem'[f] == mem[f]
    ensures Local(mem, used, mem', used', spaces, base, r)
  {
    hide Space, Frames, Owned, SamePages;
    SpaceFrames(mem, used, spaces, base, r);
    forall s | s in spaces && s != r
      ensures Space(mem', used', s, TOP, KERNEL_ENTRIES, base)
      ensures Frames(mem', s) == Frames(mem, s) <= used
      ensures SamePages(mem, mem', s)
      ensures Frames(mem', r) !! Frames(mem, s)
    {
      SpaceFrames(mem, used, spaces, base, s);
      OthersKept(mem, used, mem', used', spaces, base, r, s);
    }
    StillOwned(mem, used, mem', used', spaces, base, r);
    Assemble(mem, used, mem', used', spaces, spaces, base, r);
  }

  lemma StillOwned(mem: Memory, used: set<nat>, mem': Memory, used': set<nat>, spaces: set<nat>, base: set<nat>, r: nat)
    requires forall f :: f in used ==> f in base || Owned(mem, spaces, f)
    requires r in spaces
    requires forall s :: s in spaces ==> Frames(mem, s) <= Frames(mem', s)
    requires used' - used <= Frames(mem', r)
    ensures forall f :: f in used' ==> f in base || Owned(mem', spaces, f)
  {
    forall f | f in used' ensures f in base || Owned(mem', spaces, f) {
      if f in used && f !in base {
        var s :| s in spaces && f in Frames(mem, s);
        assert f in Frames(mem', s);
      }
    }
  }

  /** A store into a page that a space owns concerns that page of that space only. */
  lemma StoreLocal(mem: Memory, used: set<nat>, mem': Memory, spaces: set<nat>, base: set<nat>,
                   r: nat, a: LinearAddress, page: Frame)
    requires System(mem, used, spaces, base) && r in spaces && KERNEL_ENTRIES <= a.pml4
    requires Walk(mem, r, TOP, a).present && Walk(mem, r, TOP, a).writable && Walk(mem, r, TOP, a).addr < |mem|
    requires mem' == mem[Walk(mem, r, TOP, a).addr := page]
    ensures Local(mem, used, mem', used, spaces, base, r)
    ensures SameWalks(mem, mem', r, TOP, KERNEL_ENTRIES)
    ensures forall b: LinearAddress :: KERNEL_ENTRIES <= Part(b, TOP) && !SamePage(a, b, TOP) ==>
      SamePageThrough(mem, mem', r, TOP, b)
  {
    hide Space, Frames, System, Local, Walk;
    SpaceFrames(mem, used, spaces, base, r);
    StoreFrames(mem, used, mem', base, r, a, page);
    ChangeLocal(mem, used, mem', used, spaces, base, r);
  }

  lemma StoreFrames(mem: Memory, used: set<nat>, mem': Memory, base: set<nat>, r: nat, a: LinearAddress, page: Frame)
    requires Space(mem, used, r, TOP, KERNEL_ENTRIES, base) && KERNEL_ENTRIES <= a.pml4
    requires Walk(mem, r, TOP, a).present && Walk(mem, r, TOP, a).writable && Walk(mem, r, TOP, a).addr < |mem|
    requires mem' == mem[Walk(mem, r, TOP, a).addr := page]
    ensures Space(mem', used, r, TOP, KERNEL_ENTRIES, base)
    ensures Frames(mem', r) == Frames(mem, r) + (used - used)
    ensures forall f :: f in used && f < |mem| && f !in Frames(mem, r) ==> mem'[f] == mem[f]
    ensures forall f :: f in used ==> f < |mem|
    ensures SameWalks(mem, mem', r, TOP, KERNEL_ENTRIES)
    ensures forall b: LinearAddress :: KERNEL_ENTRIES <= Part(b, TOP) && !SamePage(a, b, TOP) ==>
      SamePageThrough(mem, mem', r, TOP, b)
  {
    LeafNotTable(mem, r, TOP, KERNEL_ENTRIES, base, a);
    StoreKeepsTree(mem, used, mem', r, TOP, KERNEL_ENTRIES, base, a, page);
  }

  /** A new top table, empty above the kernel entries, is a new space. */
  lemma StartLocal(mem: Memory, used: set<nat>, mem': Memory, used': set<nat>, spaces: set<nat>, base: set<nat>, r: nat)
    requires System(mem, used, spaces, base)
    requires r !in used && r < |mem| == |mem'| && used' == used + {r}
    requires forall f :: f in used && f < |mem| ==> mem'[f] == mem[f]
    requires EmptyFrom(mem', r, KERNEL_ENTRIES)
    ensures Local(mem, used, mem', used', spaces + {r}, base, r)
    ensures Own(mem', r, TOP, KERNEL_ENTRIES) == {} && r !in spaces
  {
    hide Space, Frames, SamePages;
    EmptyOwns(mem', r, TOP, KERNEL_ENTRIES);
    EmptySpace(mem', used', r, base);
    forall s | s in spaces
      ensures s != r
      ensures Space(mem', used', s, TOP, KERNEL_ENTRIES, base)
      ensures Frames(mem', s) == Frames(mem, s) <= used
      ensures SamePages(mem, mem', s)
    {
      SpaceFrames(mem, used, spaces, base, s);
      assert s in used by { TableInUse(mem, used, s, TOP, KERNEL_ENTRIES, base); }
      Bystander(mem, used, mem', used', base, s);
    }
    forall f | f in used' ensures f in base || Owned(mem', spaces + {r}, f) {
      if f == r {
        assert r in Frames(mem', r);
      } else if f !in base {
        var s :| s in spaces && f in Frames(mem, s);
        assert f in Frames(mem', s);
      }
    }
    Assemble(mem, used, mem', used', spaces, spaces + {r}, base, r);
  }

  lemma EmptySpace(mem: Memory, used: set<nat>, r: nat, base: set<nat>)
    requires EmptyFrom(mem, r, KERNEL_ENTRIES) && r in used && base <= used - {r}
    requires forall f :: f in used ==> f < |mem|
    ensures Space(mem, used, r, TOP, KERNEL_ENTRIES, base) && Frames(mem, r) == {r}
  {
    EmptyOwns(mem, r, TOP, KERNEL_ENTRIES);
  }

  /** A space that ends gives back exactly its own frames. */
  lemma EndLocal(mem: Memory, used: set<nat>, mem': Memory, used': set<nat>, spaces: set<nat>, base: set<nat>, r: nat)
    requires System(mem, used, spaces, base) && r in spaces
    requires |mem'| == |mem| && used' == used - Frames(mem, r)
    requires forall f :: 0 <= f < |mem| && f !in Frames(mem, r) ==> mem'[f] == mem[f]
    ensures Local(mem, used, mem', used', spaces - {r}, base, r)
  {
    hide Space, Frames, SamePages, Owned;
    SpaceFrames(mem, used, spaces, base, r);
    forall s | s in spaces && s != r
      ensures Space(mem', used', s, TOP, KERNEL_ENTRIES, base)
      ensures Frames(mem', s) == Frames(mem, s)
      ensures SamePages(mem, mem', s)
    {
      EndOther(mem, used, mem', used', spaces, base, r, s);
    }
    EndOwned(mem, used, mem', used', spaces, base, r);
    Assemble(mem, used, mem', used', spaces, spaces - {r}, base, r);
  }

  lemma EndOther(mem: Memory, used: set<nat>, mem': Memory, used': set<nat>, spaces: set<nat>, base: set<nat>, r: nat,
                 s: nat)
    requires System(mem, used, spaces, base) && r in spaces && s in spaces && s != r
    requires |mem'| == |mem| && used' == used - Frames(mem, r)
    requires forall f :: 0 <= f < |mem| && f !in Frames(mem, r) ==> mem'[f] == mem[f]
    ensures Space(mem', used', s, TOP, KERNEL_ENTRIES, base)
    ensures Frames(mem', s) == Frames(mem, s)
    ensures SamePages(mem, mem', s)
  {
    hide Space, Frames;
    SpaceFrames(mem, used, spaces, base, r);
    SpaceFrames(mem, used, spaces, base, s);
    assert Frames(mem, s) !! Frames(mem, r);
    Bystander(mem, used, mem', used', base, s);
  }

  lemma EndOwned(mem: Memory, used: set<nat>, mem': Memory, used': set<nat>, spaces: set<nat>, base: set<nat>, r: nat)
    requires forall f :: f in used ==> f in base || Owned(mem, spaces, f)
    requires used' == used - Frames(mem, r)
    requires forall s :: s in spaces && s != r ==> Frames(mem', s) == Frames(mem, s)
    ensures forall f :: f in used' ==> f in base || Owned(mem', spaces - {r}, f)
  {
    hide Frames;
    forall f | f in used' && f !in base ensures Owned(mem', spaces - {r}, f) {
      var s :| s in spaces && f in Frames(mem, s);
      assert s in spaces - {r} && f in Frames(mem', s);
    }
  }

  lemma CleanedFromBottom(mem: Memory, used: set<nat>, mem': Memory, used': set<nat>, r: nat, a: LinearAddress,
                          base: set<nat>)
    requires Space(mem, used, r, TOP, KERNEL_ENTRIES, base)
    requires a == LinearAddress(KERNEL_ENTRIES, 0, 0, 0)
    requires Cleaned(mem, used, mem', used', r, TOP, a, ENTRIES)
    ensures used' == used - Own(mem, r, TOP, KERNEL_ENTRIES)
    ensures r in used'
    ensures forall f :: 0 <= f < |mem| && f !in Frames(mem, r) ==> mem'[f] == mem[f]
  {
    FreedAll(mem, r, TOP, a);
    forall f | f in SlotsBelow(mem, r, TOP, KERNEL_ENTRIES, ENTRIES) ensures f in Own(mem, r, TOP, KERNEL_ENTRIES) {
    }
  }

  /** With no live space, exactly the frames of base are in use. */
  lemma AllReturned(mem: Memory, used: set<nat>, base: set<nat>)
    requires System(mem, used, {}, base)
    ensures used == base
  {
    forall f | f in used ensures f in base {
      assert !Owned(mem, {}, f);
    }
  }

  // ----- Images -----

  /** The pages a copy of the image has. */
  ghost predicate Shared(mem: Memory, image: nat, b: LinearAddress) {
    KERNEL_ENTRIES <= b.pml4 && OnFirstPath(mem, image, TOP, KERNEL_ENTRIES, b) && Walk(mem, image, TOP, b).present
  }

  ghost function FrameAt(mem: Memory, f: nat): Frame {
    if f < |mem| then mem[f] else ZeroFrame()
  }

  /** The contents of a page of an image. */
  ghost function ImagePage(mem: Memory, image: nat, b: LinearAddress): Frame {
    FrameAt(mem, Walk(mem, image, TOP, b).addr)
  }

  /** The image looks the same as long as base is untouched. */
  lemma ImageKept(mem: Memory, mem': Memory, image: nat, base: set<nat>)
    requires Image(mem, image, TOP, KERNEL_ENTRIES, base)
    requires |mem'| == |mem| && SameFrames(mem, mem', base)
    ensures Image(mem', image, TOP, KERNEL_ENTRIES, base)
    ensures CanCopy(mem, image, TOP, KERNEL_ENTRIES) ==> CanCopy(mem', image, TOP, KERNEL_ENTRIES)
    ensures forall b: LinearAddress :: Shared(mem', image, b) == Shared(mem, image, b)
    ensures forall b: LinearAddress :: Shared(mem, image, b) ==> ImagePage(mem', image, b) == ImagePage(mem, image, b)
  {
    ImageFrame(mem, mem', image, TOP, KERNEL_ENTRIES, base);
    forall b: LinearAddress ensures Shared(mem', image, b) == Shared(mem, image, b) {
      assert SamePaths(mem, mem', image, TOP, KERNEL_ENTRIES);
      assert KERNEL_ENTRIES <= b.pml4 ==> KERNEL_ENTRIES <= Part(b, TOP);
    }
    forall b: LinearAddress | Shared(mem, image, b) ensures ImagePage(mem', image, b) == ImagePage(mem, image, b) {
      assert KERNEL_ENTRIES <= Part(b, TOP);
      ImageReaches(mem, image, TOP, KERNEL_ENTRIES, base, b);
    }
  }

  lemma {:induction false} ImageReaches(mem: Memory, t: nat, level: nat, lo: nat, base: set<nat>, b: LinearAddress)
    requires Image(mem, t, level, lo, base) && lo <= Part(b, level) && 1 <= level
    requires Walk(mem, t, level, b).present
    ensures Walk(mem, t, level, b).addr in base && Walk(mem, t, level, b).addr < |mem|
    decreases level
  {
    if level > 1 {
      ImageReaches(mem, mem[t][Part(b, level)].addr, level - 1, 0, base, b);
    }
  }

  // ----- What an application finds in its pages -----

  /** A user store of one word. */
  datatype Store = Store(page: LinearAddress, word: Index, value: Entry)

  /** The pages of an application with what they held at first, and the stores it has made since. */
  datatype View = View(first: imap<LinearAddress, Frame>, log: seq<Store>)

  /** The word of a page after a log of stores. */
  ghost function Overlay(log: seq<Store>, b: LinearAddress, k: Index, initial: Entry): Entry
    decreases |log|
  {
    if log == [] then initial
    else
      var last := log[|log| - 1];
      if last.page == b && last.word == k then last.value
      else Overlay(log[..|log| - 1], b, k, initial)
  }

  /** What the application reads at a word of a page of its own. */
  ghost function Seen(v: View, b: LinearAddress, k: Index): Entry
    requires b in v.first
  {
    Overlay(v.log, b, k, v.first[b][k])
  }

  /** Stores go to pages that are there. */
  ghost predicate Proper(v: View) {
    && (forall b: LinearAddress :: b in v.first ==> KERNEL_ENTRIES <= b.pml4)
    && forall i :: 0 <= i < |v.log| ==> v.log[i].page in v.first
  }

  ghost predicate ShowsPage(mem: Memory, r: nat, v: View, b: LinearAddress) {
    var w := Walk(mem, r, TOP, b);
    if b in v.first then
      w.present && w.addr < |mem| && forall k: Index :: mem[w.addr][k] == Seen(v, b, k)
    else !w.present
  }

  /** The space has exactly the pages of the view, and each holds what the application sees there. */
  ghost predicate Shows(mem: Memory, r: nat, v: View) {
    Proper(v) && forall b: LinearAddress :: KERNEL_ENTRIES <= Part(b, TOP) ==> ShowsPage(mem, r, v, b)
  }

  lemma {:induction false} SamePageIsSame(a: LinearAddress, b: LinearAddress, level: nat)
    ensures SamePage(a, b, level) <==> forall l :: 1 <= l <= level ==> Part(a, l) == Part(b, l)
  {
    if level > 0 {
      SamePageIsSame(a, b, level - 1);
    }
  }

  lemma SamePageEqual(a: LinearAddress, b: LinearAddress)
    ensures SamePage(a, b, TOP) <==> a == b
  {
    SamePageIsSame(a, b, TOP);
    if SamePage(a, b, TOP) {
      SameParts(a, b);
    }
  }

  /** A log without stores to a page leaves the page as it was. */
  lemma {:induction false} OverlayNone(log: seq<Store>, b: LinearAddress, k: Index, initial: Entry)
    requires forall i :: 0 <= i < |log| ==> log[i].page != b
    ensures Overlay(log, b, k, initial) == initial
    decreases |log|
  {
    if log != [] {
      OverlayNone(log[..|log| - 1], b, k, initial);
    }
  }

  /** What others do does not show. */
  lemma ShowsKept(mem: Memory, mem': Memory, r: nat, v: View)
    requires Shows(mem, r, v) && SamePages(mem, mem', r)
    ensures Shows(mem', r, v)
  {
    forall b: LinearAddress | KERNEL_ENTRIES <= Part(b, TOP) ensures ShowsPage(mem', r, v, b) {
      assert ShowsPage(mem, r, v, b);
      assert SamePageThrough(mem, mem', r, TOP, b);
    }
  }

  /** The view of a fresh copy: the pages of the image, as far as they are copied. */
  ghost function ImageView(mem: Memory, image: nat): View {
    View(imap b: LinearAddress | Shared(mem, image, b) :: ImagePage(mem, image, b), [])
  }

  lemma ShowsCopy(mem: Memory, mem': Memory, r: nat, image: nat, base: set<nat>)
    requires Image(mem, image, TOP, KERNEL_ENTRIES, base) && |mem'| == |mem| && SameFrames(mem, mem', base)
    requires Copied(mem, mem', r, image, TOP, KERNEL_ENTRIES)
    ensures Shows(mem', r, ImageView(mem, image))
  {
    hide Copied;
    var v := ImageView(mem, image);
    forall b: LinearAddress | KERNEL_ENTRIES <= b.pml4 ensures ShowsPage(mem', r, v, b) {
      CopyPage(mem, mem', r, image, base, b);
    }
    ShowsAll(mem', r, v);
  }

  lemma CopyPage(mem: Memory, mem': Memory, r: nat, image: nat, base: set<nat>, b: LinearAddress)
    requires Image(mem, image, TOP, KERNEL_ENTRIES, base) && |mem'| == |mem| && SameFrames(mem, mem', base)
    requires Copied(mem, mem', r, image, TOP, KERNEL_ENTRIES) && KERNEL_ENTRIES <= b.pml4
    ensures ShowsPage(mem', r, ImageView(mem, image), b)
  {
    assert KERNEL_ENTRIES <= Part(b, TOP);
    if Shared(mem, image, b) {
      ImageReaches(mem, image, TOP, KERNEL_ENTRIES, base, b);
    }
  }

  /** A space's own store shows in the stored word and nowhere else. */
  lemma ShowsStore(mem: Memory, mem': Memory, r: nat, v: View, a: LinearAddress, k: Index, value: Entry)
    requires Shows(mem, r, v) && a in v.first && |mem'| == |mem|
    requires SameWalks(mem, mem', r, TOP, KERNEL_ENTRIES)
    requires forall b: LinearAddress :: KERNEL_ENTRIES <= Part(b, TOP) && !SamePage(a, b, TOP) ==>
      SamePageThrough(mem, mem', r, TOP, b)
    requires var f := Walk(mem, r, TOP, a).addr; f < |mem| && mem'[f] == mem[f][k := value]
    ensures Shows(mem', r, v.(log := v.log + [Store(a, k, value)]))
  {
    var v' := v.(log := v.log + [Store(a, k, value)]);
    assert v'.log[..|v'.log| - 1] == v.log;
    forall b: LinearAddress | KERNEL_ENTRIES <= Part(b, TOP) ensures ShowsPage(mem', r, v', b) {
      SamePageEqual(a, b);
      assert ShowsPage(mem, r, v, b);
      if b != a {
        assert SamePageThrough(mem, mem', r, TOP, b);
      }
    }
  }

  /** A private copy shows what the shared page showed. */
  lemma ShowsPrivate(mem: Memory, used: set<nat>, mem': Memory, used': set<nat>, r: nat, base: set<nat>,
                     v: View, a: LinearAddress, p: nat)
    requires Shows(mem, r, v) && PrivateCopy(mem, used, mem', used', r, base, a, p)
    ensures Shows(mem', r, v)
  {
    forall b: LinearAddress | KERNEL_ENTRIES <= Part(b, TOP) ensures ShowsPage(mem', r, v, b) {
      SamePageEqual(a, b);
      assert ShowsPage(mem, r, v, b);
      if b != a {
        assert SamePageThrough(mem, mem', r, TOP, b);
      }
    }
  }

  /** The view once absent pages were mapped: those that are there now begin as zeros. */
  ghost function Grown(v: View, mem: Memory, r: nat): View {
    v.(first := imap b: LinearAddress | KERNEL_ENTRIES <= b.pml4 && Walk(mem, r, TOP, b).present ::
                  if b in v.first then v.first[b] else ZeroFrame())
  }

  lemma ShowsGrown(mem: Memory, used: set<nat>, mem': Memory, used': set<nat>, r: nat, v: View, from: nat, to: nat)
    requires Shows(mem, r, v) && |mem'| == |mem|
    requires Mapped(mem, used, mem', used', r, TOP, KERNEL_ENTRIES, from, to, true)
    ensures Shows(mem', r, Grown(v, mem', r))
    ensures forall b: LinearAddress :: b in v.first ==>
      b in Grown(v, mem', r).first && Grown(v, mem', r).first[b] == v.first[b]
    ensures forall b: LinearAddress :: b in Grown(v, mem', r).first && b !in v.first ==>
      InRange(b, TOP, from, to) && Grown(v, mem', r).first[b] == ZeroFrame()
  {
    hide Shows, Proper, Mapped, Low;
    var v' := Grown(v, mem', r);
    ProperPages(mem, r, v);
    forall b: LinearAddress | KERNEL_ENTRIES <= b.pml4
      ensures ShowsPage(mem', r, v', b)
      ensures b in v.first ==> b in v'.first
      ensures b in v'.first && b !in v.first ==> InRange(b, TOP, from, to)
    {
      GrownPage(mem, used, mem', used', r, v, from, to, b);
    }
    ShowsAll(mem', r, v');
  }

  lemma ProperPages(mem: Memory, r: nat, v: View)
    requires Shows(mem, r, v)
    ensures forall b: LinearAddress :: b in v.first ==> KERNEL_ENTRIES <= b.pml4
    ensures forall i :: 0 <= i < |v.log| ==> v.log[i].page in v.first
  {
  }

  lemma ShowsAll(mem: Memory, r: nat, v: View)
    requires forall b: LinearAddress :: b in v.first ==> KERNEL_ENTRIES <= b.pml4
    requires forall i :: 0 <= i < |v.log| ==> v.log[i].page in v.first
    requires forall b: LinearAddress :: KERNEL_ENTRIES <= b.pml4 ==> ShowsPage(mem, r, v, b)
    ensures Shows(mem, r, v)
  {
    hide ShowsPage;
  }

  lemma GrownPage(mem: Memory, used: set<nat>, mem': Memory, used': set<nat>, r: nat, v: View, from: nat, to: nat,
                  b: LinearAddress)
    requires Shows(mem, r, v) && KERNEL_ENTRIES <= b.pml4 && |mem'| == |mem|
    requires Mapped(mem, used, mem', used', r, TOP, KERNEL_ENTRIES, from, to, true)
    ensures var v' := Grown(v, mem', r);
            && ShowsPage(mem', r, v', b)
            && (b in v.first ==> b in v'.first && v'.first[b] == v.first[b])
            && (b in v'.first && b !in v.first ==> InRange(b, TOP, from, to) && v'.first[b] == ZeroFrame())
  {
    var v' := Grown(v, mem', r);
    assert KERNEL_ENTRIES <= Part(b, TOP);
    assert ShowsPage(mem, r, v, b);
    assert PageEffect(mem, used, mem', used', r, TOP, b, InRange(b, TOP, from, to), true);
    if b in v.first {
      SameSeenAt(v, v', b);
    } else if b in v'.first {
      ShowsZeros(v', b);
    }
  }

  lemma SameSeenAt(v: View, v': View, b: LinearAddress)
    requires b in v.first && b in v'.first && v'.first[b] == v.first[b] && v'.log == v.log
    ensures forall k: Index :: Seen(v', b, k) == Seen(v, b, k)
  {
  }

  lemma ShowsZeros(v: View, b: LinearAddress)
    requires b in v.first && v.first[b] == ZeroFrame() && forall i :: 0 <= i < |v.log| ==> v.log[i].page != b
    ensures forall k: Index :: Seen(v, b, k) == ZERO
  {
    forall k: Index ensures Seen(v, b, k) == ZERO {
      OverlayNone(v.log, b, k, v.first[b][k]);
    }
  }

  /** A page nothing was stored to yet is filled by the kernel. */
  lemma ShowsFilled(mem: Memory, mem': Memory, r: nat, v: View, a: LinearAddress, data: Frame)
    requires Shows(mem, r, v) && a in v.first && |mem'| == |mem|
    requires forall i :: 0 <= i < |v.log| ==> v.log[i].page != a
    requires SameWalks(mem, mem', r, TOP, KERNEL_ENTRIES)
    requires forall b: LinearAddress :: KERNEL_ENTRIES <= Part(b, TOP) && !SamePage(a, b, TOP) ==>
      SamePageThrough(mem, mem', r, TOP, b)
    requires var f := Walk(mem, r, TOP, a).addr; f < |mem| && mem'[f] == data
    ensures Shows(mem', r, v.(first := v.first[a := data]))
  {
    var v' := v.(first := v.first[a := data]);
    forall b: LinearAddress | KERNEL_ENTRIES <= Part(b, TOP) ensures ShowsPage(mem', r, v', b) {
      SamePageEqual(a, b);
      assert ShowsPage(mem, r, v, b);
      if b != a {
        assert SamePageThrough(mem, mem', r, TOP, b);
        SameSeen(v, v', b);
      } else {
        forall k: Index ensures Seen(v', a, k) == data[k] {
          OverlayNone(v.log, a, k, data[k]);
        }
      }
    }
  }

  lemma SameSeen(v: View, v': View, b: LinearAddress)
    requires v'.log == v.log && (b in v.first <==> b in v'.first) && (b in v.first ==> v'.first[b] == v.first[b])
    ensures b in v.first ==> forall k: Index :: Seen(v', b, k) == Seen(v, b, k)
  {
  }
}
