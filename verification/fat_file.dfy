/** Open files on a FAT volume: cursors walking a cluster chain, refining a flat sequence of bytes. */
module FatFile {
  import opened Basics
  import opened ClusterChain
  import opened FatContent

  const TWO_TO_THE_16: nat := 0x1_0000
  const TWO_TO_THE_32: nat := 0x1_0000_0000
  const TWO_TO_THE_64: nat := 0x1_0000_0000_0000_0000

  /** The chain of a cluster. */
  ghost function ChainOf(fat: seq<nat>, c: nat): (chain: seq<nat>)
    requires HasChain(fat, c)
    ensures ChainFrom(fat, c, chain)
  {
    var chain :| ChainFrom(fat, c, chain);
    chain
  }

  lemma ChainOfIs(fat: seq<nat>, c: nat, chain: seq<nat>)
    requires |fat| <= FIRST_END_MARK && ChainFrom(fat, c, chain)
    ensures HasChain(fat, c) && ChainOf(fat, c) == chain
  {
    ChainUnique(fat, c, ChainOf(fat, c), chain);
  }

  class Volume {
    const fat: array<nat>
    const clusters: array<seq<Byte>>
    const bytesPerCluster: nat

    constructor (fat: array<nat>, clusters: array<seq<Byte>>, bytesPerCluster: nat)
      ensures this.fat == fat && this.clusters == clusters && this.bytesPerCluster == bytesPerCluster
    {
      this.fat, this.clusters, this.bytesPerCluster := fat, clusters, bytesPerCluster;
    }

    ghost predicate Valid()
      reads this, fat, clusters
    {
      fat.Length == clusters.Length && bytesPerCluster > 0 && Sized(clusters[..], bytesPerCluster) && Sound(fat[..])
    }
  }

  class DirectoryEntry {
    var firstClusterLow: nat
    var firstClusterHigh: nat
    var fileSize: nat

    constructor ()
      ensures FirstCluster() == 0 && fileSize == 0
    {
      firstClusterLow, firstClusterHigh, fileSize := 0, 0, 0;
    }

    function FirstCluster(): nat
      reads this
    {
      firstClusterLow + firstClusterHigh * TWO_TO_THE_16
    }

    /** The two 16-bit halves hold any 32-bit cluster number. */
    method SetFirstCluster(cluster: nat)
      requires cluster < TWO_TO_THE_32
      modifies this
      ensures FirstCluster() == cluster && fileSize == old(fileSize)
      ensures firstClusterLow == cluster % 0x1_0000 && firstClusterHigh == cluster / 0x1_0000
    {
      firstClusterLow := cluster % TWO_TO_THE_16;
      firstClusterHigh := (cluster / TWO_TO_THE_16) % TWO_TO_THE_16;
    }
  }

  /** min(len, size - off) in 64-bit unsigned arithmetic. */
  function Available(len: nat, size: nat, off: nat): nat {
    Min(len, (size - off) % TWO_TO_THE_64)
  }

  /**
   The limit on a read is the rest of the file as long as the cursor is not beyond its end; beyond it there is none.
   */
  lemma AvailableIsTheRest(len: nat, size: nat, off: nat)
    requires size < TWO_TO_THE_64 && off < TWO_TO_THE_64
    ensures off <= size ==> Available(len, size, off) == Min(len, size - off)
    ensures off > size ==> Available(len, size, off) == Min(len, TWO_TO_THE_64 - (off - size))
  {
    if off > size {
      assert (size - off) % TWO_TO_THE_64 == size - off + TWO_TO_THE_64;
    }
  }

  /** With the cursor at 7 in a file of 5 bytes nothing is left, and yet all ten bytes asked for count as there. */
  lemma CursorBeyondTheEnd()
    ensures Available(10, 5, 7) == 10
  {
    AvailableIsTheRest(10, 5, 7);
  }

  /** A buffer with some of its bytes replaced. */
  function Placed(buf: seq<Byte>, at: nat, src: seq<Byte>): seq<Byte>
    requires at + |src| <= |buf|
  {
    buf[..at] + src + buf[at + |src|..]
  }

  method MemCopy(dest: array<Byte>, at: nat, src: seq<Byte>)
    requires at + |src| <= dest.Length
    modifies dest
    ensures dest[..] == Placed(old(dest[..]), at, src)
  {
    forall i | 0 <= i < |src| {
      dest[at + i] := src[i];
    }
  }

  /** A reading cursor at byte `position`: off bytes into the k-th cluster, or just behind the last. */
  predicate ReadAt(chain: seq<nat>, bytesPerCluster: nat, k: nat, cluster: nat, off: nat, position: nat) {
    && k <= |chain| && position == Base(bytesPerCluster, k) + off && off < bytesPerCluster
    && (if k < |chain| then cluster == chain[k]
        else off == 0 && cluster == if chain == [] then 0 else END_OF_CLUSTERCHAIN)
  }

  lemma {:induction false} BaseMonotone(bytesPerCluster: nat, j: nat, k: nat)
    requires j <= k
    ensures Base(bytesPerCluster, j) <= Base(bytesPerCluster, k)
    decreases k
  {
    if j < k {
      BaseMonotone(bytesPerCluster, j, k - 1);
    }
  }

  /** Reading on by n bytes inside the current cluster. */
  lemma ReadOn(fat: seq<nat>, first: nat, chain: seq<nat>, bytesPerCluster: nat, k: nat, cluster: nat, off: nat,
               position: nat, n: nat)
    requires |fat| <= FIRST_END_MARK && ChainFrom(fat, first, chain)
    requires ReadAt(chain, bytesPerCluster, k, cluster, off, position) && k < |chain| && off + n <= bytesPerCluster
    ensures cluster < |fat|
    ensures off + n < bytesPerCluster ==> ReadAt(chain, bytesPerCluster, k, cluster, off + n, position + n)
    ensures off + n == bytesPerCluster ==>
              ReadAt(chain, bytesPerCluster, k + 1, NextCluster(fat, cluster), 0, position + n)
  {
    LinkIsNoEnd(fat, first, chain);
    if k + 1 < |chain| {
      assert fat[chain[k]] == chain[k + 1];
    }
  }

  // ----- What a write leaves alone -----

  predicate Apart(a: seq<nat>, b: seq<nat>) {
    forall i :: 0 <= i < |a| ==> a[i] !in b
  }

  /**
   Between two states of the volume, every chain that shares no cluster with the given one, and the
   bytes in its clusters, are the same; no used cluster became free.
   */
  ghost predicate OthersKept(fat: seq<nat>, clusters: seq<seq<Byte>>, chain: seq<nat>,
                             fat': seq<nat>, clusters': seq<seq<Byte>>) {
    && |fat| == |fat'| == |clusters| == |clusters'|
    && (forall c :: 0 <= c < |fat| && fat[c] != 0 ==> fat'[c] != 0)
    && (forall c, other :: ChainFrom(fat, c, other) && Apart(other, chain) ==>
          ChainFrom(fat', c, other) && forall i :: 0 <= i < |other| ==> clusters'[other[i]] == clusters[other[i]])
  }

  /** The clusters of the chain now belonged to it before, or to nobody. */
  predicate OwnOrFresh(fat: seq<nat>, chain: seq<nat>, chain': seq<nat>) {
    forall i :: 0 <= i < |chain'| ==> chain'[i] in chain || (chain'[i] < |fat| && fat[chain'[i]] == 0)
  }

  lemma ChainUsed(fat: seq<nat>, c: nat, chain: seq<nat>, i: nat)
    requires ChainFrom(fat, c, chain) && i < |chain|
    ensures Used(fat, chain[i])
  {
    assert i + 1 < |chain| ==> fat[chain[i]] == chain[i + 1];
  }

  lemma KeptByStore(fat: seq<nat>, clusters: seq<seq<Byte>>, chain: seq<nat>, fat': seq<nat>, clusters': seq<seq<Byte>>,
                    chain': seq<nat>, k: nat, bytes: seq<Byte>)
    requires OthersKept(fat, clusters, chain, fat', clusters') && OwnOrFresh(fat, chain, chain')
    requires k < |chain'| && chain'[k] < |clusters'|
    ensures OthersKept(fat, clusters, chain, fat', clusters'[chain'[k] := bytes])
  {
    hide ChainFrom;
    forall c, other | ChainFrom(fat, c, other) && Apart(other, chain)
      ensures ChainFrom(fat', c, other)
      ensures forall i :: 0 <= i < |other| ==>
                other[i] < |clusters| && clusters'[chain'[k] := bytes][other[i]] == clusters[other[i]]
    {
      forall i | 0 <= i < |other|
        ensures other[i] < |clusters| && clusters'[chain'[k] := bytes][other[i]] == clusters[other[i]]
      {
        ChainUsed(fat, c, other, i);
        assert other[i] != chain'[k];
      }
    }
  }

  lemma KeptByExtension(fat: seq<nat>, clusters: seq<seq<Byte>>, chain: seq<nat>, fat': seq<nat>,
                        clusters': seq<seq<Byte>>,
                        chain': seq<nat>, fat'': seq<nat>, path: seq<nat>)
    requires OthersKept(fat, clusters, chain, fat', clusters') && OwnOrFresh(fat, chain, chain')
    requires |chain'| > 0 && Addable(fat', path) && path[0] == Last(chain') && Extended(fat', fat'', path)
    requires forall c, other :: ChainFrom(fat', c, other) ==> ChainFrom(fat'', c, Longer(other, path))
    ensures OthersKept(fat, clusters, chain, fat'', clusters') && OwnOrFresh(fat, chain, Longer(chain', path))
  {
    hide ChainFrom;
    forall c, other | ChainFrom(fat, c, other) && Apart(other, chain) ensures ChainFrom(fat'', c, other) {
      ChainStart(fat, c, other);
      ChainUsed(fat, c, other, |other| - 1);
      assert ChainFrom(fat', c, other);
    }
    forall c | 0 <= c < |fat| && fat[c] != 0 ensures fat''[c] != 0 {
      if c in path {
        var i :| 0 <= i < |path| && path[i] == c;
        assert i + 1 < |path| ==> fat''[path[i]] == path[i + 1];
      }
    }
  }

  lemma KeptAtFirst(fat: seq<nat>, clusters: seq<seq<Byte>>, chain: seq<nat>)
    requires |fat| == |clusters|
    ensures OthersKept(fat, clusters, chain, fat, clusters) && OwnOrFresh(fat, chain, chain)
  {
  }

  // ----- Bookkeeping of a write -----

  /** The n bytes of memory from `from` bytes behind the caller's pointer on. */
  function Bytes(buf: nat -> Byte, from: nat, n: nat): seq<Byte> {
    seq(n, i requires 0 <= i < n => buf(from + i))
  }

  /** What is stored once the current cluster is full or the write is done. */
  function Next(len: nat, total: nat, off: nat, bytesPerCluster: nat): nat {
    if off <= bytesPerCluster then total + Min(len, bytesPerCluster - off) else total
  }

  /**
   In the middle of a write: `goal` bytes will be stored in all, the free clusters suffice, and, if
   `small`, at most one cluster is missing at the end of the chain.
   */
  predicate Progress(len: nat, total: nat, off: nat, bytesPerCluster: nat, ahead: nat, free: nat, goal: nat,
                     small: bool) {
    var next := Next(len, total, off, bytesPerCluster);
    && off <= bytesPerCluster && bytesPerCluster > 0
    && (total >= len ==> goal == total)
    && (total < len ==>
          && goal == WriteTotal(len, next, bytesPerCluster)
          && free >= Allocations(len, next, ahead, bytesPerCluster)
          && (small && next < len ==> NumCluster(len - next, bytesPerCluster) <= ahead + 1))
  }

  lemma ProgressPut(len: nat, total: nat, off: nat, bytesPerCluster: nat, ahead: nat, free: nat, goal: nat, small: bool)
    requires Progress(len, total, off, bytesPerCluster, ahead, free, goal, small) && total < len
    requires off < bytesPerCluster
    ensures var n := Min(len, bytesPerCluster - off);
            0 < n && Progress(len, total + n, off + n, bytesPerCluster, ahead, free, goal, small)
  {
  }

  lemma ProgressEnter(len: nat, total: nat, bytesPerCluster: nat, ahead: nat, free: nat, goal: nat, small: bool)
    requires Progress(len, total, bytesPerCluster, bytesPerCluster, ahead, free, goal, small) && total < len
    ensures ahead > 0 ==> Progress(len, total, 0, bytesPerCluster, ahead - 1, free, goal, small)
    ensures ahead == 0 ==>
              var m := NumCluster(len - total, bytesPerCluster);
              && 1 <= m <= free && (small ==> m == 1)
              && Progress(len, total, 0, bytesPerCluster, 0, free - m, goal, small)
  {
    NumClusterStep(len, total, bytesPerCluster);
  }

  class FileDescriptor {
    const volume: Volume
    const entry: DirectoryEntry
    var rdOff: nat
    var rdCluster: nat
    var rdClusterOff: nat
    var wrOff: nat
    var wrCluster: nat
    var wrClusterOff: nat
    ghost var rdIndex: nat
    ghost var wrIndex: nat

    constructor (volume: Volume, entry: DirectoryEntry)
      ensures this.volume == volume && this.entry == entry
      ensures rdOff == rdCluster == rdClusterOff == 0 && wrOff == wrCluster == wrClusterOff == wrIndex == 0
    {
      this.volume, this.entry := volume, entry;
      rdOff, rdCluster, rdClusterOff, wrOff, wrCluster, wrClusterOff := 0, 0, 0, 0, 0, 0;
      wrIndex := 0;
    }

    /** The file has a chain long enough for its size, or no cluster at all. */
    ghost predicate ValidFile()
      reads volume, volume.fat, volume.clusters, entry
    {
      && volume.Valid() && entry.fileSize < TWO_TO_THE_32
      && (entry.FirstCluster() != 0 ==> Used(volume.fat[..], entry.FirstCluster()))
      && entry.fileSize <= Base(volume.bytesPerCluster, |Chain()|)
    }

    ghost function Chain(): (chain: seq<nat>)
      reads volume, volume.fat, volume.clusters, entry
      requires volume.Valid() && (entry.FirstCluster() != 0 ==> Used(volume.fat[..], entry.FirstCluster()))
      ensures chain == [] <==> entry.FirstCluster() == 0
      ensures chain != [] ==> ChainFrom(volume.fat[..], entry.FirstCluster(), chain)
      ensures Within(volume.clusters[..], chain)
    {
      if entry.FirstCluster() == 0 then [] else ChainOf(volume.fat[..], entry.FirstCluster())
    }

    /** The bytes of the file. */
    ghost function Content(): (content: seq<Byte>)
      reads volume, volume.fat, volume.clusters, entry
      requires ValidFile()
      ensures |content| == entry.fileSize
    {
      FlatLength(volume.clusters[..], volume.bytesPerCluster, Chain());
      Flat(volume.clusters[..], Chain())[..entry.fileSize]
    }

    ghost predicate ValidReader()
      reads this, volume, volume.fat, volume.clusters, entry
    {
      && ValidFile()
      && (if rdCluster == 0 then rdOff == 0 && rdClusterOff == 0
          else ReadAt(Chain(), volume.bytesPerCluster, rdIndex, rdCluster, rdClusterOff, rdOff))
    }

    /** One piece of a read: what is left in the current cluster, or less if less is wanted. */
    method ReadPiece(buf: array<Byte>, total: nat, limit: nat, ghost chain: seq<nat>) returns (n: nat)
      requires volume.Valid() && ChainFrom(volume.fat[..], entry.FirstCluster(), chain)
      requires total < limit <= buf.Length && rdIndex < |chain|
      requires ReadAt(chain, volume.bytesPerCluster, rdIndex, rdCluster, rdClusterOff, rdOff + total)
      modifies this`rdCluster, this`rdClusterOff, this`rdIndex, buf
      ensures 0 < n && total + n <= limit
      ensures volume.Valid() && volume.fat[..] == old(volume.fat[..]) && volume.clusters[..] == old(volume.clusters[..])
      ensures ReadAt(chain, volume.bytesPerCluster, rdIndex, rdCluster, rdClusterOff, rdOff + total + n)
      ensures var flat := Flat(volume.clusters[..], chain);
              && rdOff + total + n <= |flat|
              && buf[..] == Placed(old(buf[..]), total, flat[rdOff + total..rdOff + total + n])
    {
      hide Sound, ChainFrom, Flat, Placed;
      SoundSize(volume.fat[..]);
      ReadOn(volume.fat[..], entry.FirstCluster(), chain, volume.bytesPerCluster, rdIndex, rdCluster, rdClusterOff,
             rdOff + total, 0);
      var sec := volume.clusters[rdCluster];
      n := Min(limit - total, volume.bytesPerCluster - rdClusterOff);
      ChainWithin(volume.fat[..], entry.FirstCluster(), chain, volume.clusters[..]);
      FlatPiece(volume.clusters[..], volume.bytesPerCluster, chain, rdIndex, rdClusterOff, n);
      ReadOn(volume.fat[..], entry.FirstCluster(), chain, volume.bytesPerCluster, rdIndex, rdCluster, rdClusterOff,
             rdOff + total, n);
      rdClusterOff := rdClusterOff + n;
      MemCopy(buf, total, sec[rdClusterOff - n..rdClusterOff]);
      if rdClusterOff == volume.bytesPerCluster {
        rdCluster := NextCluster(volume.fat[..], rdCluster);
        rdClusterOff := 0;
        rdIndex := rdIndex + 1;
      }
    }

    /** The loop of Read. */
    method ReadPieces(buf: array<Byte>, limit: nat, ghost chain: seq<nat>) returns (total: nat)
      requires volume.Valid() && limit <= buf.Length
      requires chain != [] ==> ChainFrom(volume.fat[..], entry.FirstCluster(), chain)
      requires ReadAt(chain, volume.bytesPerCluster, rdIndex, rdCluster, rdClusterOff, rdOff)
      requires rdOff + limit <= |Flat(volume.clusters[..], chain)|
      modifies this`rdCluster, this`rdClusterOff, this`rdIndex, buf
      ensures total == limit
      ensures volume.Valid() && volume.fat[..] == old(volume.fat[..]) && volume.clusters[..] == old(volume.clusters[..])
      ensures ReadAt(chain, volume.bytesPerCluster, rdIndex, rdCluster, rdClusterOff, rdOff + limit)
      ensures buf[..] == Placed(old(buf[..]), 0, Flat(volume.clusters[..], chain)[rdOff..rdOff + limit])
    {
      hide Sound, ChainFrom, Flat, Placed, Sized, Within;
      ghost var was, flat := buf[..], Flat(volume.clusters[..], chain);
      ChainWithin(volume.fat[..], entry.FirstCluster(), chain, volume.clusters[..]);
      FlatLength(volume.clusters[..], volume.bytesPerCluster, chain);
      PlacedNothing(was, flat, rdOff);
      total := 0;
      while total < limit
        invariant 0 <= total <= limit
        invariant volume.Valid() && volume.fat[..] == old(volume.fat[..])
        invariant volume.clusters[..] == old(volume.clusters[..])
        invariant ReadAt(chain, volume.bytesPerCluster, rdIndex, rdCluster, rdClusterOff, rdOff + total)
        invariant buf[..] == Placed(was, 0, flat[rdOff..rdOff + total])
      {
        var n := ReadPiece(buf, total, limit, chain);
        Joined(was, flat, rdOff, total, n);
        total := total + n;
      }
    }

    /** Returns the next bytes of the file, as many as asked for or as there are, and moves on behind them. */
    method Read(buf: array<Byte>, len: nat) returns (total: nat)
      requires ValidReader() && rdOff <= entry.fileSize && len <= buf.Length
      modifies this`rdOff, this`rdCluster, this`rdClusterOff, this`rdIndex, buf
      ensures ValidReader() && total == Min(len, entry.fileSize - old(rdOff)) && rdOff == old(rdOff) + total
      ensures Content() == old(Content())
      ensures buf[..total] == Content()[old(rdOff)..rdOff] && buf[total..] == old(buf[total..])
    {
      hide Sound, ChainFrom, Flat, Placed, Sized, Within, ReadAt, Base, Available;
      ghost var chain, content, was := Chain(), Content(), buf[..];
      ReaderStart(Chain(), volume.fat[..], entry.FirstCluster(), volume.bytesPerCluster);
      AvailableIsTheRest(len, entry.fileSize, rdOff);
      FlatLength(volume.clusters[..], volume.bytesPerCluster, chain);
      if rdCluster == 0 {
        rdCluster := entry.FirstCluster();
        rdIndex := 0;
      }
      var limit := Available(len, entry.fileSize, rdOff);
      total := ReadPieces(buf, limit, chain);
      assert Chain() == chain && Content() == content;
      assert content[rdOff..rdOff + total] == Flat(volume.clusters[..], chain)[rdOff..rdOff + total];
      PlacedParts(was, content[rdOff..rdOff + total]);
      rdOff := rdOff + total;
    }

    /** Reads from the given offset, with a descriptor of its own: the bytes there, as a Read from there would give. */
    method Load(buf: array<Byte>, len: nat, offset: nat) returns (total: nat)
      requires ValidFile() && offset <= entry.fileSize && len <= buf.Length
      modifies buf
      ensures ValidFile() && Content() == old(Content()) && total == Min(len, entry.fileSize - offset)
      ensures buf[..total] == Content()[offset..offset + total] && buf[total..] == old(buf[total..])
    {
      hide Sound, ChainFrom, Flat, Sized, Within, ReadAt;
      ghost var chain, content := Chain(), Content();
      var fd := new FileDescriptor(volume, entry);
      var cluster, rest, k := Locate(offset, chain);
      fd.rdOff, fd.rdCluster, fd.rdClusterOff, fd.rdIndex := offset, cluster, rest, k;
      assert fd.Chain() == chain && fd.Content() == content;
      ReaderStart(chain, volume.fat[..], entry.FirstCluster(), volume.bytesPerCluster);
      total := fd.Read(buf, len);
    }

    /** The loop of Load: the cluster that holds an offset, and the offset in it. */
    method Locate(offset: nat, ghost chain: seq<nat>) returns (cluster: nat, rest: nat, ghost k: nat)
      requires ValidFile() && offset <= entry.fileSize && chain == Chain()
      ensures ReadAt(chain, volume.bytesPerCluster, k, cluster, rest, offset)
    {
      hide Sound, ChainFrom, Flat, Sized, Within;
      ReaderStart(chain, volume.fat[..], entry.FirstCluster(), volume.bytesPerCluster);
      cluster, rest, k := entry.FirstCluster(), offset, 0;
      while rest >= volume.bytesPerCluster
        invariant 0 <= rest && k <= |chain| && offset == Base(volume.bytesPerCluster, k) + rest
        invariant ReadAt(chain, volume.bytesPerCluster, k, cluster, 0, Base(volume.bytesPerCluster, k))
        decreases rest
      {
        SoundSize(volume.fat[..]);
        assert k < |chain|;
        ReadOn(volume.fat[..], entry.FirstCluster(), chain, volume.bytesPerCluster, k, cluster, 0,
               Base(volume.bytesPerCluster, k), volume.bytesPerCluster);
        rest := rest - volume.bytesPerCluster;
        cluster := NextCluster(volume.fat[..], cluster);
        k := k + 1;
      }
      ReadWithin(chain, volume.bytesPerCluster, k, cluster, rest);
    }

    // ----- Writing -----

    /** The write cursor is off bytes into some cluster of the chain. */
    ghost predicate WriterAt(first: nat, chain: seq<nat>)
      reads this, volume, volume.fat, volume.clusters
    {
      && volume.Valid() && ChainFrom(volume.fat[..], first, chain)
      && wrIndex < |chain| && wrCluster == chain[wrIndex] && wrClusterOff <= volume.bytesPerCluster
    }

    /** The bytes before the write cursor. */
    ghost function WrittenIn(first: nat, chain: seq<nat>): seq<Byte>
      reads this, volume, volume.fat, volume.clusters
      requires WriterAt(first, chain)
    {
      Before(volume.clusters[..], chain, wrIndex, wrClusterOff)
    }

    /**
     Moves the cursor from the end of a cluster on, allocating room for all that remains if the chain is at its end.
     */
    method EnterNextCluster(remaining: nat, ghost first: nat, ghost chain: seq<nat>,
                            ghost fat0: seq<nat>, ghost clusters0: seq<seq<Byte>>, ghost chain0: seq<nat>)
      returns (ghost chain': seq<nat>)
      requires WriterAt(first, chain) && wrClusterOff == volume.bytesPerCluster && remaining > 0
      requires wrIndex + 1 == |chain| ==>
                 FreeCount(volume.fat[..], 2) >= NumCluster(remaining, volume.bytesPerCluster)
      requires OthersKept(fat0, clusters0, chain0, volume.fat[..], volume.clusters[..])
      requires OwnOrFresh(fat0, chain0, chain)
      modifies this`wrCluster, this`wrClusterOff, this`wrIndex, volume.fat
      ensures WriterAt(first, chain') && wrClusterOff == 0 && wrIndex > old(wrIndex)
      ensures volume.clusters[..] == old(volume.clusters[..])
      ensures OthersKept(fat0, clusters0, chain0, volume.fat[..], volume.clusters[..])
      ensures OwnOrFresh(fat0, chain0, chain')
      ensures old(wrIndex) + 1 < |chain| ==>
                && chain' == chain && wrIndex == old(wrIndex) + 1
                && FreeCount(volume.fat[..], 2) == old(FreeCount(volume.fat[..], 2))
      ensures old(wrIndex) + 1 == |chain| ==>
                var m := NumCluster(remaining, volume.bytesPerCluster);
                && |chain'| == |chain| + m && chain'[..|chain|] == chain && wrIndex == |chain'| - 1
                && FreeCount(volume.fat[..], 2) == old(FreeCount(volume.fat[..], 2)) - m
      ensures wrIndex == old(wrIndex) + 1 ==> WrittenIn(first, chain') == old(WrittenIn(first, chain))
    {
      hide Sound, ChainFrom, Before, OthersKept, OwnOrFresh, Addable, Extended, FreeFrom, FreeCount, Sized;
      ghost var was, end := volume.fat[..], Last(chain);
      chain' := chain;
      SoundSize(was);
      NextInChain(was, first, chain, wrIndex);
      var next := NextCluster(volume.fat[..], wrCluster);
      if next == END_OF_CLUSTERCHAIN {
        NumClusterIsQuotient(remaining, volume.bytesPerCluster);
        var m := (remaining + volume.bytesPerCluster - 1) / volume.bytesPerCluster;
        wrCluster := ExtendFrom(m, first, chain);
        ghost var path := NewPath(was, end, m);
        KeptByExtension(fat0, clusters0, chain0, was, volume.clusters[..], chain, volume.fat[..], path);
        chain' := Longer(chain, path);
        LongerParts(chain, was, m);
        wrIndex := |chain'| - 1;
      } else {
        wrCluster := next;
        wrIndex := wrIndex + 1;
      }
      wrClusterOff := 0;
      if wrIndex == old(wrIndex) + 1 {
        ChainWithin(volume.fat[..], first, chain', volume.clusters[..]);
        BeforeEntered(volume.clusters[..], volume.bytesPerCluster, chain, chain', wrIndex - 1);
      }
    }

    /** ExtendCluster, called with the last cluster of the chain. */
    method ExtendFrom(m: nat, ghost first: nat, ghost chain: seq<nat>) returns (last: nat)
      requires volume.Valid() && ChainFrom(volume.fat[..], first, chain) && wrCluster == Last(chain)
      requires FreeCount(volume.fat[..], 2) >= m
      modifies volume.fat
      ensures var path := NewPath(old(volume.fat[..]), Last(chain), m);
              && Addable(old(volume.fat[..]), path) && Extended(old(volume.fat[..]), volume.fat[..], path)
              && ChainFrom(volume.fat[..], first, Longer(chain, path)) && last == path[m] && |path| == m + 1
              && (forall c, other :: ChainFrom(old(volume.fat[..]), c, other) ==>
                    ChainFrom(volume.fat[..], c, Longer(other, path)))
      ensures volume.Valid() && FreeCount(volume.fat[..], 2) == old(FreeCount(volume.fat[..], 2)) - m
    {
      hide Sound, ChainFrom, Addable, Extended, FreeFrom, FreeCount, Sized;
      ChainEnd(volume.fat[..], first, chain);
      last := ExtendCluster(volume.fat, wrCluster, m, [wrCluster]);
    }

    /** Stores one piece at the cursor: the smaller of len and what is left in the cluster. */
    method PutPiece(buf: nat -> Byte, len: nat, total: nat, ghost first: nat, ghost chain: seq<nat>,
                    ghost fat0: seq<nat>, ghost clusters0: seq<seq<Byte>>, ghost chain0: seq<nat>)
      returns (n: nat)
      requires WriterAt(first, chain) && wrClusterOff < volume.bytesPerCluster
      requires OthersKept(fat0, clusters0, chain0, volume.fat[..], volume.clusters[..])
      requires OwnOrFresh(fat0, chain0, chain)
      modifies this`wrClusterOff, volume.clusters
      ensures n == Min(len, volume.bytesPerCluster - old(wrClusterOff)) && wrClusterOff == old(wrClusterOff) + n
      ensures WriterAt(first, chain) && volume.fat[..] == old(volume.fat[..])
      ensures OthersKept(fat0, clusters0, chain0, volume.fat[..], volume.clusters[..])
      ensures WrittenIn(first, chain) == old(WrittenIn(first, chain)) + Bytes(buf, total, n)
    {
      hide Sound, ChainFrom, OthersKept, OwnOrFresh, Flat, Before;
      SoundSize(volume.fat[..]);
      ChainWithin(volume.fat[..], first, chain, volume.clusters[..]);
      n := Min(len, volume.bytesPerCluster - wrClusterOff);
      var data := Bytes(buf, total, n);
      StoreAppends(volume.fat[..], volume.clusters[..], chain, first, wrIndex, wrClusterOff, data);
      var sec := volume.clusters[wrCluster];
      var sec' := sec[..wrClusterOff] + data + sec[wrClusterOff + n..];
      KeptByStore(fat0, clusters0, chain0, volume.fat[..], volume.clusters[..], chain, wrIndex, sec');
      ghost var clusters := volume.clusters[..];
      volume.clusters[wrCluster] := sec';
      assert volume.clusters[..] == Stored(clusters, wrCluster, wrClusterOff, data);
      wrClusterOff := wrClusterOff + n;
    }

    /** The loop of Write. */
    method WritePieces(buf: nat -> Byte, len: nat, ghost first: nat, ghost chain0: seq<nat>, ghost goal: nat,
                       ghost small: bool,
                       ghost fat0: seq<nat>, ghost clusters0: seq<seq<Byte>>, ghost own: seq<nat>)
      returns (total: nat, ghost chain: seq<nat>)
      requires WriterAt(first, chain0)
      requires Progress(len, 0, wrClusterOff, volume.bytesPerCluster, |chain0| - 1 - wrIndex,
                        FreeCount(volume.fat[..], 2), goal, small)
      requires small || Lacking(len, 0, wrClusterOff, volume.bytesPerCluster, |chain0| - 1 - wrIndex)
      requires OthersKept(fat0, clusters0, own, volume.fat[..], volume.clusters[..]) && OwnOrFresh(fat0, own, chain0)
      modifies this`wrCluster, this`wrClusterOff, this`wrIndex, volume.fat, volume.clusters
      ensures WriterAt(first, chain) && total == goal
      ensures OthersKept(fat0, clusters0, own, volume.fat[..], volume.clusters[..]) && OwnOrFresh(fat0, own, chain)
      ensures small <==> WrittenIn(first, chain) == old(WrittenIn(first, chain0)) + Bytes(buf, 0, total)
      ensures Base(volume.bytesPerCluster, wrIndex) + wrClusterOff
           >= old(Base(volume.bytesPerCluster, wrIndex) + wrClusterOff) + total
      ensures |chain| + FreeCount(volume.fat[..], 2) == |chain0| + old(FreeCount(volume.fat[..], 2))
      ensures old(wrIndex) == |chain0| - 1 ==> wrIndex == |chain| - 1
    {
      hide Sound, ChainFrom, Before, OthersKept, OwnOrFresh, FreeCount, Sized, Track, Progress, Lacking, NumCluster;
      total, chain := 0, chain0;
      ghost var bpc := volume.bytesPerCluster;
      ghost var from := Base(bpc, wrIndex) + wrClusterOff;
      ghost var start := WrittenIn(first, chain0);
      TrackStart(len, wrClusterOff, bpc, wrIndex, |chain|, FreeCount(volume.fat[..], 2), goal, small);
      CursorLength(volume.clusters[..], bpc, volume.fat[..], first, chain, wrIndex, wrClusterOff);
      assert start + Bytes(buf, 0, 0) == start;
      while total < len
        invariant WriterAt(first, chain)
        invariant Track(len, total, wrClusterOff, bpc, wrIndex, |chain|, FreeCount(volume.fat[..], 2), goal, small,
                        from)
        invariant OthersKept(fat0, clusters0, own, volume.fat[..], volume.clusters[..]) && OwnOrFresh(fat0, own, chain)
        invariant small ==> WrittenIn(first, chain) == start + Bytes(buf, 0, total)
        invariant |chain| + FreeCount(volume.fat[..], 2) == |chain0| + old(FreeCount(volume.fat[..], 2))
        invariant old(wrIndex) == |chain0| - 1 ==> wrIndex == |chain| - 1
        decreases len - total
      {
        if wrClusterOff == volume.bytesPerCluster {
          TrackEnter(len, total, bpc, wrIndex, |chain|, FreeCount(volume.fat[..], 2), goal, small, from);
          chain := EnterNextCluster(len - total, first, chain, fat0, clusters0, own);
        }
        TrackPut(len, total, wrClusterOff, bpc, wrIndex, |chain|, FreeCount(volume.fat[..], 2), goal, small, from);
        var n := PutPiece(buf, len, total, first, chain, fat0, clusters0, own);
        BytesMore(buf, total, n, start);
        total := total + n;
      }
      TrackDone(len, total, wrClusterOff, bpc, wrIndex, |chain|, FreeCount(volume.fat[..], 2), goal, small, from);
      CursorLength(volume.clusters[..], bpc, volume.fat[..], first, chain, wrIndex, wrClusterOff);
    }

    ghost predicate ValidWriter()
      reads this, volume, volume.fat, volume.clusters, entry
    {
      && ValidFile()
      && if wrCluster == 0 then wrOff == 0 && wrClusterOff == 0 && wrIndex == 0
         else
           && entry.FirstCluster() != 0 && WriterAt(entry.FirstCluster(), Chain())
           && wrOff <= Base(volume.bytesPerCluster, wrIndex) + wrClusterOff
    }

    /** The bytes of the file before the write cursor. */
    ghost function Written(): seq<Byte>
      reads this, volume, volume.fat, volume.clusters, entry
      requires ValidWriter()
    {
      if wrCluster == 0 then [] else WrittenIn(entry.FirstCluster(), Chain())
    }

    /** The room left in the cluster the cursor is in. */
    ghost function Room(): nat
      reads this, volume
      requires wrClusterOff <= volume.bytesPerCluster
    {
      volume.bytesPerCluster - wrClusterOff
    }

    /** The clusters of the chain behind the one the cursor is in. */
    ghost function Ahead(): nat
      reads this, volume, volume.fat, volume.clusters, entry
      requires ValidWriter()
    {
      if Chain() == [] then 0 else |Chain()| - 1 - wrIndex
    }

    /** The volume has the free clusters a write of len bytes takes. */
    ghost predicate EnoughFor(len: nat)
      reads this, volume, volume.fat, volume.clusters, entry
      requires ValidWriter()
    {
      var bpc := volume.bytesPerCluster;
      FreeCount(volume.fat[..], 2) >=
      if entry.FirstCluster() == 0 then AtLeastOne(NumCluster(len, bpc))
      else Allocations(len, Min(len, Room()), Ahead(), bpc)
    }

    /** The file has no cluster yet, or its chain lacks at most one cluster for the write. */
    ghost predicate OneClusterMissing(len: nat)
      reads this, volume, volume.fat, volume.clusters, entry
      requires ValidWriter()
    {
      entry.FirstCluster() == 0
      || (len > Room() ==> NumCluster(len - Room(), volume.bytesPerCluster) <= Ahead() + 1)
    }

    /** The first write through a descriptor: to the beginning of the file, or of a new chain if the file has none. */
    method StartWriting(len: nat)
      requires ValidWriter() && wrCluster == 0 && EnoughFor(len)
      modifies this`wrCluster, volume.fat, entry
      ensures volume.Valid() && Used(volume.fat[..], entry.FirstCluster())
      ensures WriterAt(entry.FirstCluster(), Chain())
      ensures volume.clusters[..] == old(volume.clusters[..])
      ensures OthersKept(old(volume.fat[..]), old(volume.clusters[..]), old(Chain()), volume.fat[..],
                         volume.clusters[..])
      ensures |Chain()| + FreeCount(volume.fat[..], 2) == old(|Chain()| + FreeCount(volume.fat[..], 2))
      ensures |Chain()| == if old(entry.FirstCluster()) == 0 then AtLeastOne(NumCluster(len, volume.bytesPerCluster))
                            else old(|Chain()|)
      ensures OwnOrFresh(old(volume.fat[..]), old(Chain()), Chain())
      ensures var bpc := volume.bytesPerCluster;
              Progress(len, 0, 0, bpc, |Chain()| - 1, FreeCount(volume.fat[..], 2),
                       WriteTotal(len, Min(len, bpc), bpc), old(OneClusterMissing(len)))
    {
      hide Sound, ChainFrom, OthersKept, OwnOrFresh, Sized, FreeCount, FreeFrom, Allocations, WriteTotal, NumCluster;
      ghost var fat0, clusters0, chain0 := volume.fat[..], volume.clusters[..], Chain();
      ghost var free, bpc := FreeCount(fat0, 2), volume.bytesPerCluster;
      KeptAtFirst(fat0, clusters0, chain0);
      if entry.FirstCluster() != 0 {
        wrCluster := entry.FirstCluster();
        ChainStart(fat0, wrCluster, chain0);
        ProgressAtCursor(len, 0, bpc, |chain0| - 1, free, OneClusterMissing(len));
      } else {
        NumClusterIsQuotient(len, bpc);
        var n := (len + volume.bytesPerCluster - 1) / volume.bytesPerCluster;
        wrCluster := AllocateClusterChain(volume.fat, n);
        ghost var added := FreeFrom(fat0, 2, AtLeastOne(n));
        KeptByAllocation(fat0, clusters0, volume.fat[..], added);
        InSmallTable(volume.fat[..], wrCluster, added);
        entry.SetFirstCluster(wrCluster);
        ChainOfIs(volume.fat[..], wrCluster, added);
        ProgressAfterAllocation(len, bpc, FreeCount(volume.fat[..], 2));
      }
    }

    /** Makes the cursor point into a cluster, whether or not it did before. */
    method PrepareWriting(len: nat)
      requires ValidWriter() && EnoughFor(len)
      modifies this`wrCluster, volume.fat, entry
      ensures volume.Valid() && Used(volume.fat[..], entry.FirstCluster())
      ensures WriterAt(entry.FirstCluster(), Chain()) && WrittenIn(entry.FirstCluster(), Chain()) == old(Written())
      ensures OthersKept(old(volume.fat[..]), old(volume.clusters[..]), old(Chain()), volume.fat[..],
                         volume.clusters[..])
      ensures |Chain()| + FreeCount(volume.fat[..], 2) == old(|Chain()| + FreeCount(volume.fat[..], 2))
      ensures |Chain()| == if old(entry.FirstCluster()) == 0 then AtLeastOne(NumCluster(len, volume.bytesPerCluster))
                            else old(|Chain()|)
      ensures OwnOrFresh(old(volume.fat[..]), old(Chain()), Chain())
      ensures wrOff <= Base(volume.bytesPerCluster, wrIndex) + wrClusterOff
      ensures Progress(len, 0, wrClusterOff, volume.bytesPerCluster, |Chain()| - 1 - wrIndex,
                       FreeCount(volume.fat[..], 2),
                       old(WriteTotal(len, Min(len, Room()), volume.bytesPerCluster)), old(OneClusterMissing(len)))
      ensures old(OneClusterMissing(len)) || Lacking(len, 0, wrClusterOff, volume.bytesPerCluster,
                                                     |Chain()| - 1 - wrIndex)
    {
      hide Sound, ChainFrom, OthersKept, OwnOrFresh, Sized, FreeCount, Allocations, WriteTotal, NumCluster, Before,
           Progress;
      if wrCluster == 0 {
        StartWriting(len);
        NothingWritten(volume.clusters[..], Chain());
      } else {
        KeptAtFirst(volume.fat[..], volume.clusters[..], Chain());
        ProgressAtCursor(len, wrClusterOff, volume.bytesPerCluster, Ahead(), FreeCount(volume.fat[..], 2),
                         OneClusterMissing(len));
        UsedFirst(volume.fat[..], entry.FirstCluster(), Chain());
      }
    }

    /**
     Stores len bytes from buf on at the write cursor.  It returns WriteTotal of them, which is len exactly
     in the cases WriteTotalExact names.  They follow directly what was written before iff the chain lacks at
     most one cluster: otherwise the clusters allocated before the last one are passed over.
     */
    method Write(buf: nat -> Byte, len: nat) returns (total: nat)
      requires ValidWriter() && EnoughFor(len)
      modifies this`wrOff, this`wrCluster, this`wrClusterOff, this`wrIndex, volume.fat, volume.clusters, entry
      ensures ValidWriter() && wrCluster != 0
      ensures total == WriteTotal(len, Min(len, old(Room())), volume.bytesPerCluster)
      ensures wrOff == old(wrOff) + total && entry.fileSize == wrOff % TWO_TO_THE_32
      ensures old(OneClusterMissing(len)) <==> Written() == old(Written()) + Bytes(buf, 0, total)
      ensures |Chain()| + FreeCount(volume.fat[..], 2) == old(|Chain()| + FreeCount(volume.fat[..], 2))
      ensures old(Ahead()) == 0 && (old(Chain()) == [] ==> len <= volume.bytesPerCluster) ==> Ahead() == 0
      ensures OthersKept(old(volume.fat[..]), old(volume.clusters[..]), old(Chain()), volume.fat[..],
                         volume.clusters[..])
    {
      hide Sound, ChainFrom, OthersKept, OwnOrFresh, Sized, FreeCount, Allocations, WriteTotal, NumCluster, Before,
           Flat, Progress;
      ghost var fat0, clusters0, chain0 := volume.fat[..], volume.clusters[..], Chain();
      ghost var goal, small := WriteTotal(len, Min(len, Room()), volume.bytesPerCluster), OneClusterMissing(len);
      OneCluster(len, volume.bytesPerCluster);
      PrepareWriting(len);
      ghost var first, chain := entry.FirstCluster(), Chain();
      total, chain := WritePieces(buf, len, first, chain, goal, small, fat0, clusters0, chain0);
      NoteSize(total, first, chain);
    }

    /** The end of Write: the file ends at the cursor. */
    method NoteSize(total: nat, ghost first: nat, ghost chain: seq<nat>)
      requires WriterAt(first, chain) && first == entry.FirstCluster()
      requires wrOff + total <= Base(volume.bytesPerCluster, wrIndex) + wrClusterOff
      modifies this`wrOff, entry`fileSize
      ensures ValidWriter() && wrCluster != 0 && Chain() == chain && first == entry.FirstCluster()
      ensures wrOff == old(wrOff) + total && entry.fileSize == wrOff % TWO_TO_THE_32
    {
      hide Sound, ChainFrom, Sized, Before, Flat;
      wrOff := wrOff + total;
      entry.fileSize := wrOff % TWO_TO_THE_32;
      WriterFile(volume.fat[..], first, chain, volume.bytesPerCluster, wrIndex, wrClusterOff);
    }
  }

  lemma UsedFirst(fat: seq<nat>, first: nat, chain: seq<nat>)
    requires ChainFrom(fat, first, chain)
    ensures Used(fat, first)
  {
    ChainUsed(fat, first, chain, 0);
  }

  lemma NothingWritten(clusters: seq<seq<Byte>>, chain: seq<nat>)
    requires |chain| > 0 && chain[0] < |clusters|
    ensures Before(clusters, chain, 0, 0) == []
  {
  }

  lemma WriterFile(fat: seq<nat>, first: nat, chain: seq<nat>, bytesPerCluster: nat, k: nat, off: nat)
    requires Sound(fat) && ChainFrom(fat, first, chain) && k < |chain| && off <= bytesPerCluster
    ensures Used(fat, first) && HasChain(fat, first) && ChainOf(fat, first) == chain && first != 0
    ensures Base(bytesPerCluster, k) + off <= Base(bytesPerCluster, |chain|) && chain[k] != 0
  {
    UsedFirst(fat, first, chain);
    ChainOfIs(fat, first, chain);
    BaseMonotone(bytesPerCluster, k + 1, |chain|);
  }

  lemma OneCluster(len: nat, bytesPerCluster: nat)
    requires bytesPerCluster > 0
    ensures len <= bytesPerCluster ==> NumCluster(len, bytesPerCluster) <= 1
  {
  }

  lemma ProgressAtCursor(len: nat, off: nat, bytesPerCluster: nat, ahead: nat, free: nat, small: bool)
    requires off <= bytesPerCluster && bytesPerCluster > 0
    requires free >= Allocations(len, Min(len, bytesPerCluster - off), ahead, bytesPerCluster)
    requires small ==> len > bytesPerCluster - off ==>
                         NumCluster(len - (bytesPerCluster - off), bytesPerCluster) <= ahead + 1
    ensures Progress(len, 0, off, bytesPerCluster, ahead, free,
                     WriteTotal(len, Min(len, bytesPerCluster - off), bytesPerCluster), small)
  {
  }

  lemma ProgressAfterAllocation(len: nat, bytesPerCluster: nat, free: nat)
    requires bytesPerCluster > 0
    ensures Progress(len, 0, 0, bytesPerCluster, AtLeastOne(NumCluster(len, bytesPerCluster)) - 1, free,
                     WriteTotal(len, Min(len, bytesPerCluster), bytesPerCluster), true)
  {
    if len > 0 {
      NumClusterStep(len, 0, bytesPerCluster);
      NoAllocations(len, Min(len, bytesPerCluster), NumCluster(len, bytesPerCluster) - 1, bytesPerCluster);
    }
  }

  lemma KeptByAllocation(fat: seq<nat>, clusters: seq<seq<Byte>>, fat': seq<nat>, added: seq<nat>)
    requires |fat| == |clusters| == |fat'|
    requires forall i :: 0 <= i < |added| ==> added[i] < |fat| && fat[added[i]] == 0
    requires forall c, other :: ChainFrom(fat, c, other) ==> ChainFrom(fat', c, other)
    requires forall c :: 0 <= c < |fat| && c !in added ==> fat'[c] == fat[c]
    ensures OthersKept(fat, clusters, [], fat', clusters) && OwnOrFresh(fat, [], added)
  {
  }

  lemma InSmallTable(fat: seq<nat>, c: nat, chain: seq<nat>)
    requires Sound(fat) && ChainFrom(fat, c, chain)
    ensures 2 <= c < TWO_TO_THE_32 && |fat| <= FIRST_END_MARK && chain[0] == c && Used(fat, c)
  {
    ChainUsed(fat, c, chain, 0);
  }

  /** More than one cluster is missing at the end of the chain for what remains behind the current cluster. */
  predicate Lacking(len: nat, total: nat, off: nat, bytesPerCluster: nat, ahead: nat)
    requires bytesPerCluster > 0
  {
    var next := Next(len, total, off, bytesPerCluster);
    off <= bytesPerCluster && next < len && NumCluster(len - next, bytesPerCluster) > ahead + 1
  }

  lemma LackingPut(len: nat, total: nat, off: nat, bytesPerCluster: nat, ahead: nat)
    requires 0 < bytesPerCluster && Lacking(len, total, off, bytesPerCluster, ahead)
    ensures var n := Min(len, bytesPerCluster - off);
            Lacking(len, total + n, off + n, bytesPerCluster, ahead)
  {
  }

  lemma LackingEnter(len: nat, total: nat, bytesPerCluster: nat, ahead: nat)
    requires 0 < bytesPerCluster && Lacking(len, total, bytesPerCluster, bytesPerCluster, ahead)
    ensures ahead > 0 ==> Lacking(len, total, 0, bytesPerCluster, ahead - 1)
    ensures ahead == 0 ==> NumCluster(len - total, bytesPerCluster) > 1
  {
  }

  /**
   The numbers in the middle of a write: the cursor is as far into the chain as bytes were written behind
   `from`, or farther; unless `small` it is farther, or a jump lies ahead.
   */
  predicate Track(len: nat, total: nat, off: nat, bytesPerCluster: nat, k: nat, clusters: nat, free: nat,
                  goal: nat, small: bool, from: nat)
  {
    var position := Base(bytesPerCluster, k) + off;
    && k < clusters && bytesPerCluster > 0
    && Progress(len, total, off, bytesPerCluster, clusters - 1 - k, free, goal, small)
    && position >= from + total
    && (small || position > from + total || Lacking(len, total, off, bytesPerCluster, clusters - 1 - k))
  }

  lemma TrackStart(len: nat, off: nat, bytesPerCluster: nat, k: nat, clusters: nat, free: nat, goal: nat, small: bool)
    requires k < clusters && 0 < bytesPerCluster
    requires Progress(len, 0, off, bytesPerCluster, clusters - 1 - k, free, goal, small)
    requires small || Lacking(len, 0, off, bytesPerCluster, clusters - 1 - k)
    ensures Track(len, 0, off, bytesPerCluster, k, clusters, free, goal, small, Base(bytesPerCluster, k) + off)
  {
  }

  lemma TrackPut(len: nat, total: nat, off: nat, bytesPerCluster: nat, k: nat, clusters: nat, free: nat,
                 goal: nat, small: bool, from: nat)
    requires Track(len, total, off, bytesPerCluster, k, clusters, free, goal, small, from)
    requires total < len && off < bytesPerCluster
    ensures var n := Min(len, bytesPerCluster - off);
            0 < n && Track(len, total + n, off + n, bytesPerCluster, k, clusters, free, goal, small, from)
  {
    hide Progress, Lacking;
    ProgressPut(len, total, off, bytesPerCluster, clusters - 1 - k, free, goal, small);
    if Lacking(len, total, off, bytesPerCluster, clusters - 1 - k) {
      LackingPut(len, total, off, bytesPerCluster, clusters - 1 - k);
    }
  }

  lemma TrackEnter(len: nat, total: nat, bytesPerCluster: nat, k: nat, clusters: nat, free: nat,
                   goal: nat, small: bool, from: nat)
    requires Track(len, total, bytesPerCluster, bytesPerCluster, k, clusters, free, goal, small, from) && total < len
    ensures k + 1 < clusters ==> Track(len, total, 0, bytesPerCluster, k + 1, clusters, free, goal, small, from)
    ensures k + 1 == clusters ==>
              var m := NumCluster(len - total, bytesPerCluster);
              && 1 <= m <= free && (small ==> m == 1)
              && Track(len, total, 0, bytesPerCluster, k + m, clusters + m, free - m, goal, small, from)
  {
    hide Progress, Lacking;
    var ahead := clusters - 1 - k;
    ProgressEnter(len, total, bytesPerCluster, ahead, free, goal, small);
    if Lacking(len, total, bytesPerCluster, bytesPerCluster, ahead) {
      LackingEnter(len, total, bytesPerCluster, ahead);
    }
    if k + 1 == clusters {
      var m := NumCluster(len - total, bytesPerCluster);
      BaseMonotone(bytesPerCluster, k + 1, k + m);
      if m > 1 {
        BaseMonotone(bytesPerCluster, k + 2, k + m);
      }
    }
  }

  lemma TrackDone(len: nat, total: nat, off: nat, bytesPerCluster: nat, k: nat, clusters: nat, free: nat,
                  goal: nat, small: bool, from: nat)
    requires Track(len, total, off, bytesPerCluster, k, clusters, free, goal, small, from) && total >= len
    ensures goal == total && Base(bytesPerCluster, k) + off >= from + total
    ensures small || Base(bytesPerCluster, k) + off > from + total
  {
  }

  lemma CursorLength(clusters: seq<seq<Byte>>, bytesPerCluster: nat, fat: seq<nat>, first: nat, chain: seq<nat>,
                     k: nat, off: nat)
    requires ChainFrom(fat, first, chain) && |fat| == |clusters| && Sized(clusters, bytesPerCluster)
    requires k < |chain| && off <= bytesPerCluster
    ensures chain[k] < |clusters| && |Before(clusters, chain, k, off)| == Base(bytesPerCluster, k) + off
  {
    FlatLength(clusters, bytesPerCluster, chain[..k]);
  }

  lemma BytesMore(buf: nat -> Byte, total: nat, n: nat, start: seq<Byte>)
    ensures start + Bytes(buf, 0, total) + Bytes(buf, total, n) == start + Bytes(buf, 0, total + n)
  {
    assert Bytes(buf, 0, total) + Bytes(buf, total, n) == Bytes(buf, 0, total + n);
  }

  lemma BeforeEntered(clusters: seq<seq<Byte>>, bytesPerCluster: nat, chain: seq<nat>, chain': seq<nat>, k: nat)
    requires Sized(clusters, bytesPerCluster) && Within(clusters, chain') && k + 1 < |chain'|
    requires k < |chain| <= |chain'| && chain'[..|chain|] == chain
    ensures chain[k] < |clusters| && chain'[k + 1] < |clusters|
    ensures Before(clusters, chain', k + 1, 0) == Before(clusters, chain, k, bytesPerCluster)
  {
    assert chain'[k] == chain'[..|chain|][k] == chain[k];
    assert chain'[..k] == chain[..k];
    BeforeNext(clusters, bytesPerCluster, chain', k);
  }

  lemma NextInChain(fat: seq<nat>, first: nat, chain: seq<nat>, k: nat)
    requires |fat| <= FIRST_END_MARK && ChainFrom(fat, first, chain) && k < |chain|
    ensures chain[k] < |fat|
    ensures NextCluster(fat, chain[k]) == if k + 1 < |chain| then chain[k + 1] else END_OF_CLUSTERCHAIN
    ensures k + 1 < |chain| ==> chain[k + 1] != END_OF_CLUSTERCHAIN
  {
    LinkIsNoEnd(fat, first, chain);
    assert k + 1 < |chain| ==> fat[chain[k]] == chain[k + 1] && InRange(fat, chain[k + 1]);
  }

  lemma ChainEnd(fat: seq<nat>, first: nat, chain: seq<nat>)
    requires ChainFrom(fat, first, chain)
    ensures ChainFrom(fat, Last(chain), [Last(chain)])
  {
  }

  lemma LongerParts(chain: seq<nat>, fat: seq<nat>, m: nat)
    requires |chain| > 0 && FreeCount(fat, 2) >= m
    ensures var longer := Longer(chain, NewPath(fat, Last(chain), m));
            |longer| == |chain| + m && longer[..|chain|] == chain
            && Last(longer) == NewPath(fat, Last(chain), m)[m]
  {
  }

  lemma ReadWithin(chain: seq<nat>, bytesPerCluster: nat, k: nat, cluster: nat, off: nat)
    requires ReadAt(chain, bytesPerCluster, k, cluster, 0, Base(bytesPerCluster, k))
    requires off < bytesPerCluster && Base(bytesPerCluster, k) + off <= Base(bytesPerCluster, |chain|)
    ensures ReadAt(chain, bytesPerCluster, k, cluster, off, Base(bytesPerCluster, k) + off)
  {
  }

  lemma ReaderStart(chain: seq<nat>, fat: seq<nat>, first: nat, bytesPerCluster: nat)
    requires bytesPerCluster > 0
    requires if first == 0 then chain == [] else ChainFrom(fat, first, chain)
    ensures ReadAt(chain, bytesPerCluster, 0, first, 0, 0)
    ensures forall k, cluster, off, pos :: ReadAt(chain, bytesPerCluster, k, cluster, off, pos) ==>
              if chain == [] then cluster == off == pos == 0 else cluster != 0
    ensures chain == [] ==> Base(bytesPerCluster, |chain|) == 0
  {
  }

  lemma PlacedNothing(was: seq<Byte>, flat: seq<Byte>, from: nat)
    requires from <= |flat|
    ensures Placed(was, 0, flat[from..from]) == was
  {
  }

  lemma PlacedParts(was: seq<Byte>, src: seq<Byte>)
    requires |src| <= |was|
    ensures Placed(was, 0, src)[..|src|] == src && Placed(was, 0, src)[|src|..] == was[|src|..]
  {
  }

  lemma ChainWithin(fat: seq<nat>, first: nat, chain: seq<nat>, clusters: seq<seq<Byte>>)
    requires (chain != [] ==> ChainFrom(fat, first, chain)) && |fat| == |clusters|
    ensures Within(clusters, chain)
  {
  }

  lemma Joined(was: seq<Byte>, flat: seq<Byte>, from: nat, total: nat, n: nat)
    requires total + n <= |was| && from + total + n <= |flat|
    ensures Placed(Placed(was, 0, flat[from..from + total]), total, flat[from + total..from + total + n])
         == Placed(was, 0, flat[from..from + total + n])
  {
  }

  lemma ChainStart(fat: seq<nat>, first: nat, chain: seq<nat>)
    requires ChainFrom(fat, first, chain)
    ensures |chain| > 0 && chain[0] == first && forall i :: 0 <= i < |chain| ==> 2 <= chain[i]
  {
  }
}
