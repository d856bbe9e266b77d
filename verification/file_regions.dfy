/** The regions of an address space that files are mapped to, and what their pages hold. */
module FileRegions {
  import opened Basics
  import opened Errors

  const PAGE_SIZE: nat := 4096

  datatype FileMapping = FileMapping(fd: nat, vaddrBegin: nat, vaddrEnd: nat)

  /** An address with its offset within the page cleared. */
  function PageOf(vaddr: nat): (page: nat)
    ensures page <= vaddr < page + PAGE_SIZE && page % PAGE_SIZE == 0
  {
    vaddr - vaddr % PAGE_SIZE
  }

  predicate Contains(m: FileMapping, vaddr: nat) {
    m.vaddrBegin <= vaddr < m.vaddrEnd
  }

  /** A region of whole pages that just holds `size` bytes. */
  predicate RegionFor(m: FileMapping, size: nat) {
    && m.vaddrBegin % PAGE_SIZE == 0 && m.vaddrEnd % PAGE_SIZE == 0
    && m.vaddrBegin <= m.vaddrEnd && size <= m.vaddrEnd - m.vaddrBegin < size + PAGE_SIZE
  }

  /** The regions lie one below the other, from `top` down to `end`. */
  predicate Stacked(maps: seq<FileMapping>, end: nat, top: nat)
    decreases |maps|
  {
    if maps == [] then end == top
    else
      var m := maps[|maps| - 1];
      m.vaddrBegin == end && end <= m.vaddrEnd && Stacked(maps[..|maps| - 1], m.vaddrEnd, top)
  }

  lemma {:induction false} StackedBounds(maps: seq<FileMapping>, end: nat, top: nat, i: nat)
    requires Stacked(maps, end, top) && i < |maps|
    ensures end <= maps[i].vaddrBegin <= maps[i].vaddrEnd <= top
    decreases |maps|
  {
    var m := maps[|maps| - 1];
    if i < |maps| - 1 {
      StackedBounds(maps[..|maps| - 1], m.vaddrEnd, top, i);
    } else {
      StackedBelow(maps[..|maps| - 1], m.vaddrEnd, top);
    }
  }

  lemma {:induction false} StackedBelow(maps: seq<FileMapping>, end: nat, top: nat)
    requires Stacked(maps, end, top)
    ensures end <= top
    decreases |maps|
  {
    if maps != [] {
      StackedBelow(maps[..|maps| - 1], maps[|maps| - 1].vaddrEnd, top);
    }
  }

  /** No address lies in two regions. */
  lemma {:induction false} RegionsDisjoint(maps: seq<FileMapping>, end: nat, top: nat, i: nat, j: nat, vaddr: nat)
    requires Stacked(maps, end, top) && i < j < |maps| && Contains(maps[i], vaddr)
    ensures !Contains(maps[j], vaddr)
    decreases |maps|
  {
    var m := maps[|maps| - 1];
    if j < |maps| - 1 {
      RegionsDisjoint(maps[..|maps| - 1], m.vaddrEnd, top, i, j, vaddr);
    } else {
      StackedBounds(maps[..|maps| - 1], m.vaddrEnd, top, i);
    }
  }

  /** Whatever address of a region is touched, its page begins inside the file. */
  lemma OffsetInFile(m: FileMapping, size: nat, vaddr: nat)
    requires RegionFor(m, size) && Contains(m, vaddr)
    ensures m.vaddrBegin <= PageOf(vaddr) && PageOf(vaddr) - m.vaddrBegin < size
    ensures PageOf(vaddr) + PAGE_SIZE <= m.vaddrEnd
  {
    var begin, end, page := m.vaddrBegin / PAGE_SIZE, m.vaddrEnd / PAGE_SIZE, vaddr / PAGE_SIZE;
    assert m.vaddrBegin == begin * PAGE_SIZE && m.vaddrEnd == end * PAGE_SIZE && PageOf(vaddr) == page * PAGE_SIZE;
  }

  /** The byte a mapped file shows `offset` bytes into its region. */
  function ByteAt(content: seq<Byte>, offset: int): Byte {
    if 0 <= offset < |content| then content[offset] else 0
  }

  /** The first mapping that contains an address. */
  function FindMapping(maps: seq<FileMapping>, vaddr: nat): (m: Option<FileMapping>)
    ensures m.Some? ==> m.value in maps && Contains(m.value, vaddr)
    ensures m.None? <==> forall i :: 0 <= i < |maps| ==> !Contains(maps[i], vaddr)
  {
    if maps == [] then None
    else if Contains(maps[0], vaddr) then Some(maps[0])
    else FindMapping(maps[1..], vaddr)
  }

  /** The bytes of the page at an address of a region: the file's bytes there, then zeros. */
  function PageBytes(content: seq<Byte>, m: FileMapping, page: nat): (bytes: seq<Byte>)
    ensures |bytes| == PAGE_SIZE
    ensures forall i :: 0 <= i < PAGE_SIZE ==> bytes[i] == ByteAt(content, page - m.vaddrBegin + i)
  {
    seq<Byte>(PAGE_SIZE, i => ByteAt(content, page - m.vaddrBegin + i))
  }

  /** Where a task may fault pages in, and the contents of its open files. */
  datatype Regions = Regions(dpagingBegin: nat, dpagingEnd: nat, fileMaps: seq<FileMapping>, files: seq<seq<Byte>>)

  predicate Demanded(regions: Regions, vaddr: nat) {
    regions.dpagingBegin <= vaddr < regions.dpagingEnd
  }

  function ContentOf(regions: Regions, fd: nat): seq<Byte> {
    if fd < |regions.files| then regions.files[fd] else []
  }

  /**
   What the page of an absent address holds once a fault was served: zeros, or a piece of a file; or nothing may be
   there.
   */
  function InitialBytes(regions: Regions, vaddr: nat): (bytes: Option<seq<Byte>>)
    ensures bytes.Some? ==> |bytes.value| == PAGE_SIZE
    ensures bytes.Some? <==> Demanded(regions, vaddr) || FindMapping(regions.fileMaps, vaddr).Some?
  {
    if Demanded(regions, vaddr) then Some(Zeros())
    else
      match FindMapping(regions.fileMaps, vaddr)
      case Some(m) => Some(PageBytes(ContentOf(regions, m.fd), m, PageOf(vaddr)))
      case None => None
  }

  function Zeros(): (bytes: seq<Byte>)
    ensures |bytes| == PAGE_SIZE && forall i :: 0 <= i < PAGE_SIZE ==> bytes[i] == 0
  {
    seq<Byte>(PAGE_SIZE, _ => 0)
  }
}
