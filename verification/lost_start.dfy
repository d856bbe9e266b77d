/** A start that loses a frame: the smallest case of what Runs.LostIff says. */
module LostStart {
  import opened Errors
  import opened PageTable
  import opened CopyProof
  import opened MemoryManager
  import opened Paging
  import AddressSpace
  import opened Application
  import opened Kernels

  const FRAMES: nat := 64
  const IMAGE: nat := 1

  /** Frame 0 is the kernel's top table, frames 1 to 4 are the tables of an image without pages. */
  function OneFrameLeft(): Memory {
    var zero := ZeroFrame();
    [zero, zero[KERNEL_ENTRIES := Link(2)], zero[0 := Link(3)], zero[0 := Link(4)]] + seq(FRAMES - 4, _ => zero)
  }

  function Link(f: nat): Entry {
    Entry(true, true, true, 0, f)
  }

  lemma ImageIsGood(mem: Memory, base: set<nat>)
    requires mem == OneFrameLeft() && forall f :: 0 <= f < FRAMES - 1 ==> f in base
    ensures GoodImage(mem, IMAGE, base)
  {
    hide GoodImage, ClearOfStack, CanCopy;
    LeafLevel(mem, 4, base);
    OneLink(mem, 3, 2, 0, 0, 4, base);
    OneLink(mem, 2, 3, 0, 0, 3, base);
    OneLink(mem, 1, 4, KERNEL_ENTRIES, KERNEL_ENTRIES, 2, base);
    NoPagesShared(mem);
    AllGood(mem, base);
  }

  lemma AllGood(mem: Memory, base: set<nat>)
    requires Image(mem, IMAGE, AddressSpace.TOP, KERNEL_ENTRIES, base)
    requires CanCopy(mem, IMAGE, AddressSpace.TOP, KERNEL_ENTRIES) && ClearOfStack(mem, IMAGE)
    ensures GoodImage(mem, IMAGE, base)
  {
    hide Image, CanCopy, ClearOfStack;
  }

  lemma LeafLevel(mem: Memory, t: nat, base: set<nat>)
    requires t < |mem| && t in base && mem[t] == ZeroFrame()
    ensures Image(mem, t, 1, 0, base) && CanCopy(mem, t, 1, 0)
  {
    assert forall i: Index :: mem[t][i] == ZERO;
  }

  lemma OneLink(mem: Memory, t: nat, level: nat, lo: nat, i: Index, f: nat, base: set<nat>)
    requires t < |mem| && f < |mem| && t in base && f in base && 1 < level && lo <= i
    requires mem[t] == ZeroFrame()[i := Link(f)]
    requires Image(mem, f, level - 1, 0, base) && CanCopy(mem, f, level - 1, 0)
    ensures Image(mem, t, level, lo, base) && CanCopy(mem, t, level, lo)
  {
    assert forall j: Index :: j != i ==> mem[t][j] == ZERO;
    assert mem[t][i] == Link(f);
    FirstPresentUnique(mem[t], lo, i);
  }

  lemma NoPagesShared(mem: Memory)
    requires mem == OneFrameLeft()
    ensures ClearOfStack(mem, IMAGE)
  {
    forall b: LinearAddress ensures !AddressSpace.Shared(mem, IMAGE, b) {
      OneWay(mem, 1, 4, KERNEL_ENTRIES, 2, b);
      OneWay(mem, 2, 3, 0, 3, b);
      OneWay(mem, 3, 2, 0, 4, b);
      assert mem[4][Part(b, 1)] == ZERO;
    }
  }

  lemma OneWay(mem: Memory, t: nat, level: nat, i: Index, f: nat, b: LinearAddress)
    requires t < |mem| && 1 < level && mem[t] == ZeroFrame()[i := Link(f)]
    ensures Walk(mem, t, level, b).present ==> Walk(mem, f, level - 1, b).present
  {
    var j := Part(b, level);
    assert mem[t][j] == if j == i then Link(f) else ZERO;
  }

  /**
   With a single frame left, a start takes it for the top table, fails, and never gives it back: no application is
   live, and yet more frames are in use than at first.
   */
  method StartLosesAFrame() returns (kernel: Kernel)
    ensures kernel.Valid() && kernel.apps.live == map[] && kernel.apps.lost != {}
    ensures kernel.machine.Used() != kernel.base && kernel.machine.Free() == 0
  {
    hide Consistent, GoodImage, StartNeed, StartView, Run;
    var memoryManager := new BitmapMemoryManager(1);
    memoryManager.MarkAllocated(0, FRAMES - 1);
    memoryManager.SetMemoryRange(1, FRAMES);
    var machine := new Machine(OneFrameLeft(), memoryManager, 0);
    assert FreeFrames(machine.Used(), 1, FRAMES) == {FRAMES - 1};
    ImageIsGood(machine.mem, machine.Used());
    kernel := new Kernel(machine, 0, {IMAGE});
    ghost var m0 := machine.mem;
    var r := kernel.Start(IMAGE);
    StartTakesMore(m0);
    ReturnedIff(machine.mem, machine.Used(), kernel.apps, kernel.base, kernel.images);
  }

  lemma StartTakesMore(mem: Memory)
    ensures StartNeed(mem, IMAGE) > 1
  {
  }
}
