/** What is written to a file is what is read back, whatever the sizes of the pieces. */
module FatRoundTrip {
  import opened Basics
  import opened ClusterChain
  import opened FatContent
  import opened FatFile

  function Concat(chunks: seq<seq<Byte>>): seq<Byte> {
    if chunks == [] then [] else Concat(chunks[..|chunks| - 1]) + chunks[|chunks| - 1]
  }

  function Sum(sizes: seq<nat>): nat {
    if sizes == [] then 0 else Sum(sizes[..|sizes| - 1]) + sizes[|sizes| - 1]
  }

  /** No chunk, stored behind those before it, crosses the boundary between two clusters. */
  predicate NoCrossing(chunks: seq<seq<Byte>>, bytesPerCluster: nat)
    requires bytesPerCluster > 0
  {
    forall i :: 0 <= i < |chunks| ==> |Concat(chunks[..i])| % bytesPerCluster + |chunks[i]| <= bytesPerCluster
  }

  /** Where a position lies within its cluster. */
  lemma {:induction false} PositionInCluster(bytesPerCluster: nat, k: nat, off: nat)
    requires off <= bytesPerCluster && bytesPerCluster > 0
    ensures (Base(bytesPerCluster, k) + off) % bytesPerCluster == if off == bytesPerCluster then 0 else off
    decreases k
  {
    if k > 0 {
      PositionInCluster(bytesPerCluster, k - 1, off);
      ModStep(Base(bytesPerCluster, k - 1) + off, bytesPerCluster);
    } else if off == bytesPerCluster {
      ModStep(0, bytesPerCluster);
    }
  }

  lemma {:induction false} MoreThanBase(bytes: nat, bytesPerCluster: nat, k: nat)
    requires bytesPerCluster > 0 && bytes > Base(bytesPerCluster, k)
    ensures NumCluster(bytes, bytesPerCluster) >= k + 1
    decreases k
  {
    if k > 0 {
      BaseAtLeast(bytesPerCluster, k);
      MoreThanBase(bytes - bytesPerCluster, bytesPerCluster, k - 1);
    }
  }

  lemma {:induction false} BaseAtLeast(bytesPerCluster: nat, k: nat)
    requires k > 0
    ensures Base(bytesPerCluster, k) >= bytesPerCluster
    decreases k
  {
    if k > 1 {
      BaseAtLeast(bytesPerCluster, k - 1);
    }
  }

  lemma {:induction false} ConcatTake(chunks: seq<seq<Byte>>, i: nat)
    requires i <= |chunks|
    ensures |Concat(chunks[..i])| <= |Concat(chunks)|
    ensures Concat(chunks[..i]) == Concat(chunks)[..|Concat(chunks[..i])|]
    decreases |chunks| - i
  {
    if i == |chunks| {
      assert chunks[..i] == chunks;
    } else {
      ConcatTake(chunks, i + 1);
      assert chunks[..i + 1][..i] == chunks[..i];
    }
  }

  /** A write that stays inside one cluster stores exactly its bytes and allocates at most that cluster. */
  lemma FitsExactly(len: nat, off: nat, bytesPerCluster: nat)
    requires bytesPerCluster > 0 && off <= bytesPerCluster
    requires len <= if off == bytesPerCluster then bytesPerCluster else bytesPerCluster - off
    ensures WriteTotal(len, Min(len, bytesPerCluster - off), bytesPerCluster) == len
    ensures Allocations(len, Min(len, bytesPerCluster - off), 0, bytesPerCluster)
         == if off == bytesPerCluster && len > 0 then 1 else 0
    ensures len > bytesPerCluster - off ==> NumCluster(len - (bytesPerCluster - off), bytesPerCluster) <= 1
    ensures len <= bytesPerCluster && AtLeastOne(NumCluster(len, bytesPerCluster)) == 1
  {
  }

  /** The memory a chunk is written from: the chunk, and whatever lies behind it. */
  function Memory(chunk: seq<Byte>): nat -> Byte {
    (i: nat) => if i < |chunk| then chunk[i] else 0
  }

  lemma MemoryHolds(chunk: seq<Byte>)
    ensures Bytes(Memory(chunk), 0, |chunk|) == chunk
  {
  }

  /**
   A descriptor through which exactly these bytes were written, to a file that was empty, and no cluster was wasted.
   */
  ghost predicate HasWritten(fd: FileDescriptor, bytes: seq<Byte>, free: nat)
    reads fd, fd.volume, fd.volume.fat, fd.volume.clusters, fd.entry
  {
    && fd.ValidWriter() && fd.Written() == bytes && fd.wrOff == |bytes| == fd.entry.fileSize
    && fd.Ahead() == 0 && |fd.Chain()| + FreeCount(fd.volume.fat[..], 2) == free
    && (fd.wrCluster == 0 ==> fd.Chain() == [])
  }

  lemma FreshWriter(fd: FileDescriptor)
    requires fd.volume.Valid() && fd.entry.FirstCluster() == 0 && fd.entry.fileSize == 0
    requires fd.wrOff == fd.wrCluster == fd.wrClusterOff == 0 && fd.wrIndex == 0
    ensures HasWritten(fd, [], FreeCount(fd.volume.fat[..], 2))
  {
  }

  lemma CursorPosition(fd: FileDescriptor, bytes: seq<Byte>, free: nat)
    requires HasWritten(fd, bytes, free) && fd.wrCluster != 0
    ensures |fd.Chain()| == fd.wrIndex + 1
    ensures |bytes| == Base(fd.volume.bytesPerCluster, fd.wrIndex) + fd.wrClusterOff
  {
    ghost var clusters, chain := fd.volume.clusters[..], fd.Chain();
    BeforeIsPrefix(clusters, fd.volume.bytesPerCluster, chain, fd.wrIndex, fd.wrClusterOff);
  }

  /** The whole file is what was written. */
  lemma ContentIsWritten(fd: FileDescriptor, bytes: seq<Byte>, free: nat)
    requires HasWritten(fd, bytes, free)
    ensures fd.Content() == bytes
  {
    if fd.wrCluster != 0 {
      BeforeIsPrefix(fd.volume.clusters[..], fd.volume.bytesPerCluster, fd.Chain(), fd.wrIndex, fd.wrClusterOff);
      CursorPosition(fd, bytes, free);
    }
  }

  lemma ReadyFor(fd: FileDescriptor, bytes: seq<Byte>, free: nat, len: nat, whole: nat)
    requires HasWritten(fd, bytes, free) && |bytes| + len <= whole
    requires |bytes| % fd.volume.bytesPerCluster + len <= fd.volume.bytesPerCluster
    requires free >= AtLeastOne(NumCluster(whole, fd.volume.bytesPerCluster))
    ensures fd.EnoughFor(len) && fd.OneClusterMissing(len) && (fd.Chain() == [] ==> len <= fd.volume.bytesPerCluster)
    ensures WriteTotal(len, Min(len, fd.Room()), fd.volume.bytesPerCluster) == len
  {
    hide Sound, Sized, FreeCount, Flat, ChainFrom, NumCluster, Allocations, WriteTotal;
    var bpc := fd.volume.bytesPerCluster;
    if fd.wrCluster == 0 {
      FitsExactly(len, 0, bpc);
    } else {
      CursorPosition(fd, bytes, free);
      PositionInCluster(bpc, fd.wrIndex, fd.wrClusterOff);
      FitsExactly(len, fd.wrClusterOff, bpc);
      if fd.wrClusterOff == bpc && len > 0 {
        MoreThanBase(whole, bpc, fd.wrIndex + 1);
      }
    }
  }

  lemma HasWrittenParts(fd: FileDescriptor, bytes: seq<Byte>, free: nat)
    requires fd.ValidWriter()
    ensures HasWritten(fd, bytes, free) <==>
              && fd.Written() == bytes && fd.wrOff == |bytes| == fd.entry.fileSize
              && fd.Ahead() == 0 && |fd.Chain()| + FreeCount(fd.volume.fat[..], 2) == free
              && (fd.wrCluster == 0 ==> fd.Chain() == [])
  {
  }

  lemma HasWrittenValid(fd: FileDescriptor, bytes: seq<Byte>, free: nat)
    requires HasWritten(fd, bytes, free)
    ensures fd.ValidWriter()
  {
  }

  method WriteChunk(fd: FileDescriptor, chunk: seq<Byte>, ghost before: seq<Byte>, ghost free: nat, ghost whole: nat)
    requires HasWritten(fd, before, free) && |before| + |chunk| <= whole < TWO_TO_THE_32
    requires |before| % fd.volume.bytesPerCluster + |chunk| <= fd.volume.bytesPerCluster
    requires free >= AtLeastOne(NumCluster(whole, fd.volume.bytesPerCluster))
    modifies fd, fd.volume.fat, fd.volume.clusters, fd.entry
    ensures HasWritten(fd, before + chunk, free)
  {
    hide Sound, Sized, FreeCount, NumCluster, Allocations, WriteTotal, OthersKept, Flat, ChainFrom, HasWritten,
         FileDescriptor.WriterAt, FileDescriptor.ValidWriter, FileDescriptor.Written;
    HasWrittenValid(fd, before, free);
    HasWrittenParts(fd, before, free);
    ReadyFor(fd, before, free, |chunk|, whole);
    MemoryHolds(chunk);
    var total := fd.Write(Memory(chunk), |chunk|);
    HasWrittenParts(fd, before + chunk, free);
  }

  /** Writes the chunks one after the other to an empty file. */
  method WriteChunks(fd: FileDescriptor, chunks: seq<seq<Byte>>, ghost free: nat)
    requires HasWritten(fd, [], free) && NoCrossing(chunks, fd.volume.bytesPerCluster)
    requires |Concat(chunks)| < TWO_TO_THE_32
    requires free >= AtLeastOne(NumCluster(|Concat(chunks)|, fd.volume.bytesPerCluster))
    modifies fd, fd.volume.fat, fd.volume.clusters, fd.entry
    ensures HasWritten(fd, Concat(chunks), free)
  {
    hide Sound, Sized, FreeCount, NumCluster, Allocations, WriteTotal, OthersKept, Flat, HasWritten;
    var i := 0;
    while i < |chunks|
      invariant 0 <= i <= |chunks| && HasWritten(fd, Concat(chunks[..i]), free)
    {
      ConcatTake(chunks, i + 1);
      assert chunks[..i + 1][..i] == chunks[..i];
      WriteChunk(fd, chunks[i], Concat(chunks[..i]), free, |Concat(chunks)|);
      i := i + 1;
    }
    assert chunks[..i] == chunks;
  }

  /** Reads pieces of the given sizes, one after the other, with one descriptor. */
  method ReadChunks(fd: FileDescriptor, sizes: seq<nat>) returns (out: seq<Byte>)
    requires fd.ValidReader() && fd.rdOff == 0
    modifies fd
    ensures fd.ValidFile() && fd.Content() == old(fd.Content())
    ensures out == old(fd.Content())[..Min(Sum(sizes), |old(fd.Content())|)]
  {
    hide Sound, Sized, Flat, ReadAt, ChainFrom, Base, FileDescriptor.ValidReader, FileDescriptor.Content;
    ReaderValid(fd);
    ghost var content := fd.Content();
    out := [];
    var i := 0;
    while i < |sizes|
      invariant 0 <= i <= |sizes| && fd.ValidReader() && fd.ValidFile() && fd.Content() == content
      invariant fd.rdOff == Min(Sum(sizes[..i]), |content|) && out == content[..fd.rdOff]
    {
      assert sizes[..i + 1][..i] == sizes[..i];
      var buf := new Byte[sizes[i]];
      ghost var at := fd.rdOff;
      var total := fd.Read(buf, sizes[i]);
      ReaderValid(fd);
      ReadMore(content, at, total);
      out := out + buf[..total];
      i := i + 1;
    }
    assert sizes[..i] == sizes;
  }

  lemma ReaderValid(fd: FileDescriptor)
    requires fd.ValidReader()
    ensures fd.ValidFile() && |fd.Content()| == fd.entry.fileSize
  {
  }

  lemma ReadMore(content: seq<Byte>, at: nat, n: nat)
    requires at + n <= |content|
    ensures content[..at] + content[at..at + n] == content[..at + n]
  {
  }

  /**
   The round trip: chunks written one after the other to an empty file, none crossing a cluster
   boundary, on a volume with enough free clusters, are what a fresh descriptor reads, in pieces of any sizes.
   */
  method RoundTrip(volume: Volume, entry: DirectoryEntry, chunks: seq<seq<Byte>>, sizes: seq<nat>)
    returns (out: seq<Byte>)
    requires volume.Valid() && entry.FirstCluster() == 0 && entry.fileSize == 0
    requires NoCrossing(chunks, volume.bytesPerCluster) && |Concat(chunks)| < TWO_TO_THE_32
    requires FreeCount(volume.fat[..], 2) >= AtLeastOne(NumCluster(|Concat(chunks)|, volume.bytesPerCluster))
    modifies volume.fat, volume.clusters, entry
    ensures entry.fileSize == |Concat(chunks)|
    ensures out == Concat(chunks)[..Min(Sum(sizes), |Concat(chunks)|)]
  {
    hide Sound, Sized, FreeCount, NumCluster, Flat, OthersKept;
    var writer := new FileDescriptor(volume, entry);
    ghost var free := FreeCount(volume.fat[..], 2);
    FreshWriter(writer);
    WriteChunks(writer, chunks, free);
    ContentIsWritten(writer, Concat(chunks), free);
    var reader := new FileDescriptor(volume, entry);
    assert reader.Content() == writer.Content();
    out := ReadChunks(reader, sizes);
  }
}
