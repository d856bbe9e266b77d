/**
 Physical frame allocation.  A bitmap of 64-bit words, one bit a frame, refines a plain set of
 frame numbers, and the scan in Allocate is proved to be first fit.
 */
module MemoryManager {
  import opened Errors

  const BITS_PER_MAP_LINE: nat := 64
  const NULL_FRAME: nat := 0xffff_ffff_ffff_ffff

  // ----- The abstract allocator: a set of frame numbers -----

  ghost predicate Available(used: set<nat>, f: nat, end: nat) {
    f < end && f !in used
  }

  /** Every frame of [start, start + n) lies below end and is free. */
  ghost predicate FreeRun(used: set<nat>, start: nat, n: nat, end: nat) {
    forall f :: start <= f < start + n ==> Available(used, f, end)
  }

  function Run(start: nat, n: nat): (run: set<nat>)
    ensures forall f :: f in run <==> start <= f < start + n
  {
    if n == 0 then {} else Run(start, n - 1) + {start + n - 1}
  }

  /** First fit, by trying every start in turn. */
  ghost function FirstFit(used: set<nat>, begin: nat, end: nat, n: nat): Option<nat>
    decreases end - begin
  {
    if FreeRun(used, begin, n, end) then Some(begin)
    else if begin >= end then None
    else FirstFit(used, begin + 1, end, n)
  }

  lemma {:induction false} FirstFitIsLowest(used: set<nat>, begin: nat, end: nat, n: nat)
    ensures var r := FirstFit(used, begin, end, n);
            && (r.Some? ==> begin <= r.value && FreeRun(used, r.value, n, end)
                            && forall s :: begin <= s < r.value ==> !FreeRun(used, s, n, end))
            && (r.None? <==> forall s :: begin <= s ==> !FreeRun(used, s, n, end))
    decreases end - begin
  {
    if FreeRun(used, begin, n, end) {
    } else if begin >= end {
      forall s | begin <= s ensures !FreeRun(used, s, n, end) {
        var f :| begin <= f < begin + n && !Available(used, f, end);
        assert !Available(used, s, end);
      }
    } else {
      FirstFitIsLowest(used, begin + 1, end, n);
    }
  }

  lemma FirstFitUnique(used: set<nat>, begin: nat, end: nat, n: nat, start: nat)
    requires begin <= start && FreeRun(used, start, n, end)
    requires forall s :: begin <= s < start ==> !FreeRun(used, s, n, end)
    ensures FirstFit(used, begin, end, n) == Some(start)
  {
    FirstFitIsLowest(used, begin, end, n);
  }

  /** The frames an allocation may still take. */
  ghost function FreeFrames(used: set<nat>, begin: nat, end: nat): set<nat> {
    set f | begin <= f < end && f !in used
  }

  /** A single frame is found exactly if one is free, and taking it leaves one less. */
  lemma OneFrame(used: set<nat>, begin: nat, end: nat)
    ensures var r := FirstFit(used, begin, end, 1);
            var free := FreeFrames(used, begin, end);
            && (r.None? <==> free == {})
            && (r.Some? ==> r.value in free && FreeFrames(used + {r.value}, begin, end) == free - {r.value})
  {
    FirstFitIsLowest(used, begin, end, 1);
    var r := FirstFit(used, begin, end, 1);
    if r.Some? {
      assert Available(used, r.value, end);
      assert r.value in FreeFrames(used, begin, end);
      assert FreeFrames(used + {r.value}, begin, end) == FreeFrames(used, begin, end) - {r.value};
    } else {
      forall f | f in FreeFrames(used, begin, end) ensures false {
        assert FreeRun(used, f, 1, end);
      }
    }
  }

  // ----- The bitmap -----

  function Mask(bit: bv6): bv64 {
    1 << bit
  }

  function BitIndex(frame: nat): bv6 {
    (frame % BITS_PER_MAP_LINE) as bv6
  }

  predicate Test(line: bv64, frame: nat) {
    line & Mask(BitIndex(frame)) != 0
  }

  function SetLine(w: bv64, m: bv64, taken: bool): bv64 {
    if taken then w | m else w & !m
  }

  lemma MasksDiffer(a: bv6, b: bv6)
    ensures Mask(a) != 0
    ensures a != b ==> Mask(a) & Mask(b) == 0
  {
  }

  lemma SetOwnBit(w: bv64, m: bv64, taken: bool)
    requires m != 0
    ensures (SetLine(w, m, taken) & m != 0) == taken
  {
  }

  lemma SetOtherBit(w: bv64, m: bv64, k: bv64, taken: bool)
    requires m & k == 0
    ensures SetLine(w, m, taken) & k == w & k
  {
  }

  lemma BitIndexInjective(f: nat, g: nat)
    requires BitIndex(f) == BitIndex(g)
    ensures f % BITS_PER_MAP_LINE == g % BITS_PER_MAP_LINE
  {
    hide BitIndex;
    BitIndexValue(f);
    BitIndexValue(g);
  }

  lemma BitIndexValue(f: nat)
    ensures BitIndex(f) as int == f % BITS_PER_MAP_LINE
  {
  }

  /** Setting or clearing one bit of a word leaves the bits of its other frames alone. */
  lemma UpdateBit(w: bv64, f: nat, g: nat, taken: bool)
    requires f / BITS_PER_MAP_LINE == g / BITS_PER_MAP_LINE
    ensures Test(SetLine(w, Mask(BitIndex(f)), taken), g) == if f == g then taken else Test(w, g)
  {
    var m, k := Mask(BitIndex(f)), Mask(BitIndex(g));
    MasksDiffer(BitIndex(f), BitIndex(g));
    if BitIndex(f) == BitIndex(g) {
      BitIndexInjective(f, g);
      SetOwnBit(w, m, taken);
    } else {
      SetOtherBit(w, m, k, taken);
    }
  }

  class BitmapMemoryManager {
    const allocMap: array<bv64>
    var rangeBegin: nat
    var rangeEnd: nat

    ghost predicate Valid()
      reads this
    {
      rangeEnd <= Capacity()
    }

    ghost function Capacity(): nat {
      allocMap.Length * BITS_PER_MAP_LINE
    }

    /** The abstract value: the set of frames whose bit is set. */
    ghost function Allocated(): (s: set<nat>)
      reads allocMap
    {
      set f | 0 <= f < Capacity() && GetBit(f)
    }

    constructor (lines: nat)
      ensures Valid() && fresh(allocMap) && allocMap.Length == lines
      ensures Allocated() == {} && rangeBegin == 0 && rangeEnd == Capacity()
    {
      allocMap := new bv64[lines](_ => 0);
      rangeBegin := 0;
      rangeEnd := lines * BITS_PER_MAP_LINE;
    }

    predicate GetBit(frame: nat)
      requires frame < Capacity()
      reads allocMap
    {
      Test(allocMap[frame / BITS_PER_MAP_LINE], frame)
    }

    method SetBit(frame: nat, taken: bool)
      requires frame < Capacity()
      modifies allocMap
      ensures Allocated() == if taken then old(Allocated()) + {frame} else old(Allocated()) - {frame}
    {
      var line := frame / BITS_PER_MAP_LINE;
      ghost var w := allocMap[line];
      allocMap[line] := SetLine(allocMap[line], Mask(BitIndex(frame)), taken);
      forall g: nat | g < Capacity()
        ensures GetBit(g) == if g == frame then taken else old(GetBit(g))
      {
        if g / BITS_PER_MAP_LINE == line {
          UpdateBit(w, frame, g, taken);
        }
      }
    }

    method MarkAllocated(startFrame: nat, numFrames: nat)
      requires numFrames > 0 ==> startFrame + numFrames <= Capacity()
      modifies allocMap
      ensures Allocated() == old(Allocated()) + Run(startFrame, numFrames)
    {
      var i := 0;
      while i < numFrames
        invariant 0 <= i <= numFrames
        invariant Allocated() == old(Allocated()) + Run(startFrame, i)
      {
        SetBit(startFrame + i, true);
        i := i + 1;
      }
    }

    method Free(startFrame: nat, numFrames: nat) returns (error: Error)
      requires numFrames > 0 ==> startFrame + numFrames <= Capacity()
      modifies allocMap
      ensures error == Success
      ensures Allocated() == old(Allocated()) - Run(startFrame, numFrames)
    {
      var i := 0;
      while i < numFrames
        invariant 0 <= i <= numFrames
        invariant Allocated() == old(Allocated()) - Run(startFrame, i)
      {
        SetBit(startFrame + i, false);
        i := i + 1;
      }
      error := Success;
    }

    method SetMemoryRange(begin: nat, end: nat)
      requires end <= Capacity()
      modifies this
      ensures Valid() && rangeBegin == begin && rangeEnd == end
    {
      rangeBegin := begin;
      rangeEnd := end;
    }

    /** First fit: the result is that of trying every start in turn, although the scan skips. */
    method Allocate(numFrames: nat) returns (frame: WithError<nat>)
      requires Valid()
      modifies allocMap
      ensures var fit := FirstFit(old(Allocated()), rangeBegin, rangeEnd, numFrames);
              match fit
              case Some(start) =>
                frame == WithError(start, Success) && Allocated() == old(Allocated()) + Run(start, numFrames)
              case None =>
                frame == WithError(NULL_FRAME, NoEnoughMemory) && Allocated() == old(Allocated())
    {
      ghost var used := Allocated();
      var start := rangeBegin;
      while true
        invariant rangeBegin <= start && allocMap[..] == old(allocMap[..])
        invariant start == rangeBegin || start <= rangeEnd
        invariant forall s :: rangeBegin <= s < start ==> !FreeRun(used, s, numFrames, rangeEnd)
        decreases rangeEnd - start
      {
        var i := 0;
        while i < numFrames
          invariant 0 <= i <= numFrames
          invariant forall f :: start <= f < start + i ==> Available(used, f, rangeEnd)
        {
          if start + i >= rangeEnd {
            forall s | rangeBegin <= s ensures !FreeRun(used, s, numFrames, rangeEnd) {
              if s >= start {
                var last := if s > start + i then s else start + i;
                assert !Available(used, last, rangeEnd) && s <= last < s + numFrames;
              }
            }
            FirstFitIsLowest(used, rangeBegin, rangeEnd, numFrames);
            return WithError(NULL_FRAME, NoEnoughMemory);
          }
          if GetBit(start + i) {
            break;
          }
          i := i + 1;
        }
        if i == numFrames {
          FirstFitUnique(used, rangeBegin, rangeEnd, numFrames, start);
          assert numFrames > 0 ==> Available(used, start + numFrames - 1, rangeEnd);
          MarkAllocated(start, numFrames);
          return WithError(start, Success);
        }
        forall s | start <= s < start + i + 1 ensures !FreeRun(used, s, numFrames, rangeEnd) {
          assert !Available(used, start + i, rangeEnd) && s <= start + i < s + numFrames;
        }
        start := start + (i + 1);
      }
    }
  }

  // ----- Whole histories of allocations and releases -----

  datatype Block = Block(start: nat, size: nat)
  datatype Request = Obtain(n: nat) | Release(k: nat)
  datatype History = History(used: set<nat>, live: seq<Block>)

  ghost function Frames(b: Block): set<nat> {
    Run(b.start, b.size)
  }

  ghost function Covered(live: seq<Block>): set<nat> {
    if live == [] then {} else Frames(live[0]) + Covered(live[1..])
  }

  /** One request; releasing names a block by its position among the live ones. */
  ghost function Serve(h: History, begin: nat, end: nat, r: Request): History {
    match r
    case Obtain(n) => (
      match FirstFit(h.used, begin, end, n)
      case Some(start) => History(h.used + Run(start, n), [Block(start, n)] + h.live)
      case None => h)
    case Release(k) =>
      if k < |h.live| then
        History(h.used - Frames(h.live[k]), h.live[..k] + h.live[k + 1..])
      else h
  }

  ghost function ServeAll(h: History, begin: nat, end: nat, rs: seq<Request>): History
    decreases |rs|
  {
    if rs == [] then h else ServeAll(Serve(h, begin, end, rs[0]), begin, end, rs[1..])
  }

  /** Live blocks are disjoint, avoid the reserved frames, and with them make up the allocated set. */
  ghost predicate Sound(h: History, reserved: set<nat>) {
    && (forall i, j :: 0 <= i < j < |h.live| ==> Frames(h.live[i]) !! Frames(h.live[j]))
    && (forall i :: 0 <= i < |h.live| ==> Frames(h.live[i]) !! reserved)
    && h.used == reserved + Covered(h.live)
  }

  lemma {:induction false} CoveredMember(live: seq<Block>, f: nat)
    ensures f in Covered(live) <==> exists i :: 0 <= i < |live| && f in Frames(live[i])
  {
    if live != [] {
      CoveredMember(live[1..], f);
      if f in Covered(live) && f !in Frames(live[0]) {
        var i :| 0 <= i < |live[1..]| && f in Frames(live[1..][i]);
        assert f in Frames(live[i + 1]);
      }
      if i :| 0 <= i < |live| && f in Frames(live[i]) {
        if i > 0 {
          assert f in Frames(live[1..][i - 1]);
        }
      }
    }
  }

  lemma ObtainSound(h: History, reserved: set<nat>, begin: nat, end: nat, n: nat)
    requires Sound(h, reserved)
    ensures Sound(Serve(h, begin, end, Obtain(n)), reserved)
  {
    FirstFitIsLowest(h.used, begin, end, n);
    var fit := FirstFit(h.used, begin, end, n);
    if fit.Some? {
      var h' := Serve(h, begin, end, Obtain(n));
      assert h'.live[1..] == h.live;
      var b := h'.live[0];
      assert Frames(b) !! h.used by {
        forall f | f in Frames(b) ensures f !in h.used {
          assert Available(h.used, f, end);
        }
      }
      forall i | 0 <= i < |h.live| ensures Frames(h.live[i]) <= h.used {
        forall f | f in Frames(h.live[i]) ensures f in h.used {
          CoveredMember(h.live, f);
        }
      }
      assert forall i :: 0 < i < |h'.live| ==> h'.live[i] == h.live[i - 1];
    }
  }

  lemma ReleaseCovered(live: seq<Block>, k: nat)
    requires k < |live|
    requires forall i, j :: 0 <= i < j < |live| ==> Frames(live[i]) !! Frames(live[j])
    ensures Covered(live[..k] + live[k + 1..]) == Covered(live) - Frames(live[k])
  {
    hide Frames, Covered;
    var rest := live[..k] + live[k + 1..];
    forall f ensures f in Covered(rest) <==> f in Covered(live) && f !in Frames(live[k]) {
      CoveredMember(rest, f);
      CoveredMember(live, f);
      if i :| 0 <= i < |rest| && f in Frames(rest[i]) {
        var j := if i < k then i else i + 1;
        assert rest[i] == live[j] && (Frames(live[j]) !! Frames(live[k]));
      }
      if j :| 0 <= j < |live| && f in Frames(live[j]) && f !in Frames(live[k]) {
        assert rest[if j < k then j else j - 1] == live[j];
      }
    }
  }

  lemma ReleaseSound(h: History, reserved: set<nat>, begin: nat, end: nat, k: nat)
    requires Sound(h, reserved)
    ensures Sound(Serve(h, begin, end, Release(k)), reserved)
  {
    hide Frames, Covered;
    if k < |h.live| {
      ReleaseCovered(h.live, k);
      var rest := h.live[..k] + h.live[k + 1..];
      assert forall i :: 0 <= i < |rest| ==> rest[i] == h.live[if i < k then i else i + 1];
    }
  }

  /** Over any history, live allocations stay disjoint and no other frame is ever taken or lost. */
  lemma {:induction false} HistoriesAreSound(
    h: History, reserved: set<nat>, begin: nat, end: nat, rs: seq<Request>)
    requires Sound(h, reserved)
    ensures Sound(ServeAll(h, begin, end, rs), reserved)
    decreases |rs|
  {
    if rs != [] {
      match rs[0] {
        case Obtain(n) => ObtainSound(h, reserved, begin, end, n);
        case Release(k) => ReleaseSound(h, reserved, begin, end, k);
      }
      HistoriesAreSound(Serve(h, begin, end, rs[0]), reserved, begin, end, rs[1..]);
    }
  }
}
