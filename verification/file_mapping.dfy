/** Files mapped into an application's address space, loaded page by page when it touches them. */
module FileMappings {
  import opened Basics
  import opened Errors
  import opened FatContent
  import opened FatFile
  import opened FileRegions

  class Task {
    var files: seq<Option<FileDescriptor>>
    var dpagingBegin: nat
    var dpagingEnd: nat
    var fileMapEnd: nat
    var fileMaps: seq<FileMapping>
    const top: nat
    ghost var sizes: seq<nat>

    constructor (elfEnd: nat, stackFrame: nat)
      requires elfEnd % PAGE_SIZE == stackFrame % PAGE_SIZE == 0
      ensures Valid() && files == [] && fileMaps == [] && top == fileMapEnd == stackFrame
      ensures dpagingBegin == dpagingEnd == elfEnd
    {
      dpagingBegin, dpagingEnd := elfEnd, elfEnd;
      files, fileMapEnd, fileMaps, top, sizes := [], stackFrame, [], stackFrame, [];
    }

    /** Each region belongs to an open file, and is made of the pages for the size the file was mapped with. */
    ghost predicate Valid()
      reads this
    {
      && dpagingBegin % PAGE_SIZE == dpagingEnd % PAGE_SIZE == 0 && dpagingBegin <= dpagingEnd
      && fileMapEnd % PAGE_SIZE == 0 && Stacked(fileMaps, fileMapEnd, top) && |sizes| == |fileMaps|
      && forall i :: 0 <= i < |fileMaps| ==>
           RegionFor(fileMaps[i], sizes[i]) && fileMaps[i].fd < |files| && files[fileMaps[i].fd].Some?
    }

    /** Puts a file into the lowest free slot of the table of open files. */
    method OpenFile(file: FileDescriptor) returns (fd: nat)
      requires Valid()
      modifies this`files
      ensures Valid() && fd <= |old(files)| && forall i :: 0 <= i < fd ==> old(files)[i].Some?
      ensures if fd < |old(files)| then old(files)[fd].None? && files == old(files)[fd := Some(file)]
              else files == old(files) + [Some(file)]
    {
      fd := AllocateFD();
      files := files[fd := Some(file)];
    }

    method AllocateFD() returns (fd: nat)
      requires Valid()
      modifies this`files
      ensures Valid() && fd <= |old(files)| && forall i :: 0 <= i < fd ==> old(files)[i].Some?
      ensures files == if fd < |old(files)| then old(files) else old(files) + [None]
      ensures files[fd].None?
    {
      for i := 0 to |files|
        invariant forall j :: 0 <= j < i ==> files[j].Some?
        invariant Valid() && files == old(files)
      {
        if files[i].None? {
          return i;
        }
      }
      fd := |files|;
      files := files + [None];
    }

    /** Lets the demand region grow by whole pages, and returns where they begin. */
    method DemandPages(numPages: nat) returns (dpEnd: nat)
      requires Valid()
      modifies this`dpagingEnd
      ensures Valid() && dpEnd == old(dpagingEnd) && dpagingEnd == dpEnd + PAGE_SIZE * numPages
    {
      dpEnd := dpagingEnd;
      dpagingEnd := dpEnd + PAGE_SIZE * numPages;
    }

    /** The first mapping that contains the address. */
    method FindFileMapping(vaddr: nat) returns (found: Option<FileMapping>)
      requires Valid()
      ensures found == FindMapping(fileMaps, vaddr)
      ensures forall i :: 0 <= i < |fileMaps| && Contains(fileMaps[i], vaddr) ==> found == Some(fileMaps[i])
    {
      for i := 0 to |fileMaps|
        invariant forall j :: 0 <= j < i ==> !Contains(fileMaps[j], vaddr)
      {
        if Contains(fileMaps[i], vaddr) {
          forall j | 0 <= j < |fileMaps| && Contains(fileMaps[j], vaddr) ensures j == i {
            if j > i {
              RegionsDisjoint(fileMaps, fileMapEnd, top, i, j, vaddr);
            }
          }
          FirstMapping(fileMaps, i, vaddr);
          return Some(fileMaps[i]);
        }
      }
      found := None;
    }

    /**
     Reserves whole pages for the file below everything mapped so far, and returns where they begin; None
     stands for a bad descriptor.  There must be room for the file below.
     */
    method MapFile(fd: int) returns (vaddrBegin: Option<nat>)
      requires Valid()
      requires 0 <= fd < |files| && files[fd].Some? ==> files[fd].value.entry.fileSize <= fileMapEnd
      modifies this`fileMapEnd, this`fileMaps, this`sizes
      ensures Valid()
      ensures vaddrBegin == None <==> !(0 <= fd < |files| && files[fd].Some?)
      ensures vaddrBegin == None ==> fileMapEnd == old(fileMapEnd) && fileMaps == old(fileMaps)
      ensures vaddrBegin.Some? ==>
                var m := FileMapping(fd, vaddrBegin.value, old(fileMapEnd));
                && fileMaps == old(fileMaps) + [m] && RegionFor(m, files[fd].value.entry.fileSize)
                && sizes == old(sizes) + [files[fd].value.entry.fileSize]
    {
      if fd < 0 || |files| <= fd || files[fd].None? {
        return None;
      }
      var fileSize := files[fd].value.entry.fileSize;
      var vaddrEnd := fileMapEnd;
      var begin := PageOf(vaddrEnd - fileSize);
      fileMapEnd := begin;
      fileMaps, sizes := fileMaps + [FileMapping(fd, begin, vaddrEnd)], sizes + [fileSize];
      vaddrBegin := Some(begin);
    }

    /**
     A fault at any absent address: the page is left zeroed in the demand region, and filled with the bytes of
     the region's file that belong there in a file mapping; nothing is there for any other address.  The files
     may have grown since they were mapped.
     */
    method FaultPage(vaddr: nat, page: array<Byte>, ghost regions: Regions) returns (found: bool)
      requires Valid() && page.Length == PAGE_SIZE && page[..] == Zeros()
      requires regions.dpagingBegin == dpagingBegin && regions.dpagingEnd == dpagingEnd && regions.fileMaps == fileMaps
      requires forall i :: 0 <= i < |fileMaps| && Contains(fileMaps[i], vaddr) ==>
                 var fd := files[fileMaps[i].fd].value;
                 && fd.ValidFile() && sizes[i] <= fd.entry.fileSize
                 && ContentOf(regions, fileMaps[i].fd) == fd.Content()
      modifies page
      ensures Valid()
      ensures found <==> InitialBytes(regions, vaddr).Some?
      ensures page[..] == if found then InitialBytes(regions, vaddr).value else Zeros()
      ensures forall i :: 0 <= i < |fileMaps| && Contains(fileMaps[i], vaddr) ==>
                var m, fd := fileMaps[i], files[fileMaps[i].fd].value;
                && fd.ValidFile() && fd.Content() == ContentOf(regions, m.fd)
                && m.vaddrBegin <= PageOf(vaddr) && PageOf(vaddr) - m.vaddrBegin < |fd.Content()|
    {
      hide FileDescriptor.ValidFile, FileDescriptor.Content, PageBytes, RegionFor, FindMapping, Contains, Zeros;
      forall i | 0 <= i < |fileMaps| && Contains(fileMaps[i], vaddr)
        ensures var m, fd := fileMaps[i], files[fileMaps[i].fd].value;
                m.vaddrBegin <= PageOf(vaddr) && PageOf(vaddr) - m.vaddrBegin < fd.entry.fileSize == |fd.Content()|
      {
        OffsetInFile(fileMaps[i], sizes[i], vaddr);
        SizeIsLength(files[fileMaps[i].fd].value);
      }
      if dpagingBegin <= vaddr < dpagingEnd {
        return true;
      }
      var m := FindFileMapping(vaddr);
      if m.None? {
        return false;
      }
      ZeroPage(page[..]);
      PreparePageCache(files[m.value.fd].value, m.value, vaddr, page);
      found := true;
    }
  }

  lemma ZeroPage(page: seq<Byte>)
    requires page == Zeros()
    ensures |page| == PAGE_SIZE && forall i :: 0 <= i < PAGE_SIZE ==> page[i] == 0
  {
  }

  /**
   Fills a fresh, zeroed page for a fault in a region of a file: every byte of the page is the file's byte there,
   or zero behind its end.
   */
  method PreparePageCache(fd: FileDescriptor, m: FileMapping, causalVaddr: nat, page: array<Byte>)
    requires fd.ValidFile() && m.vaddrBegin <= PageOf(causalVaddr)
    requires PageOf(causalVaddr) - m.vaddrBegin <= fd.entry.fileSize
    requires page.Length == PAGE_SIZE && forall i :: 0 <= i < PAGE_SIZE ==> page[i] == 0
    modifies page
    ensures fd.ValidFile() && fd.Content() == old(fd.Content())
    ensures page[..] == PageBytes(fd.Content(), m, PageOf(causalVaddr))
  {
    hide FileDescriptor.ValidFile, FileDescriptor.Content, ByteAt, PageOf;
    SizeIsLength(fd);
    var fileOffset := PageOf(causalVaddr) - m.vaddrBegin;
    ghost var content := fd.Content();
    ghost var zeroed := page[..];
    var total := fd.Load(page, PAGE_SIZE, fileOffset);
    PageFilled(page[..], content, fileOffset, total, zeroed);
    assert page[..] == PageBytes(content, m, PageOf(causalVaddr));
  }

  lemma {:induction false} FirstMapping(maps: seq<FileMapping>, i: nat, vaddr: nat)
    requires i < |maps| && Contains(maps[i], vaddr) && forall j :: 0 <= j < i ==> !Contains(maps[j], vaddr)
    ensures FindMapping(maps, vaddr) == Some(maps[i])
  {
    if i > 0 {
      FirstMapping(maps[1..], i - 1, vaddr);
    }
  }

  lemma SizeIsLength(fd: FileDescriptor)
    requires fd.ValidFile()
    ensures |fd.Content()| == fd.entry.fileSize
  {
  }

  lemma PageFilled(page: seq<Byte>, content: seq<Byte>, offset: nat, total: nat, zeroed: seq<Byte>)
    requires |page| == |zeroed| && offset <= |content| && total == Min(|page|, |content| - offset)
    requires page[..total] == content[offset..offset + total] && page[total..] == zeroed[total..]
    requires forall i :: 0 <= i < |zeroed| ==> zeroed[i] == 0
    ensures forall i :: 0 <= i < |page| ==> page[i] == ByteAt(content, offset + i)
  {
    forall i | 0 <= i < |page| ensures page[i] == ByteAt(content, offset + i) {
      if i < total {
        assert page[i] == page[..total][i];
      } else {
        assert page[i] == page[total..][i - total];
      }
    }
  }
}
