/** The bytes of a file: its clusters, in chain order, one after the other. */
module FatContent {
  import opened Basics
  import opened ClusterChain

  /** The bytes of the clusters of a chain, concatenated. */
  function Flat(clusters: seq<seq<Byte>>, chain: seq<nat>): seq<Byte> {
    if chain == [] then []
    else
      var last := chain[|chain| - 1];
      Flat(clusters, chain[..|chain| - 1]) + (if last < |clusters| then clusters[last] else [])
  }

  /** Where the k-th cluster of a file begins. */
  function Base(bytesPerCluster: nat, k: nat): nat {
    if k == 0 then 0 else Base(bytesPerCluster, k - 1) + bytesPerCluster
  }

  predicate Sized(clusters: seq<seq<Byte>>, bytesPerCluster: nat) {
    forall c :: 0 <= c < |clusters| ==> |clusters[c]| == bytesPerCluster
  }

  predicate Within(clusters: seq<seq<Byte>>, chain: seq<nat>) {
    forall i :: 0 <= i < |chain| ==> chain[i] < |clusters|
  }

  lemma {:induction false} FlatLength(clusters: seq<seq<Byte>>, bytesPerCluster: nat, chain: seq<nat>)
    requires Sized(clusters, bytesPerCluster) && Within(clusters, chain)
    ensures |Flat(clusters, chain)| == Base(bytesPerCluster, |chain|)
  {
    if chain != [] {
      FlatLength(clusters, bytesPerCluster, chain[..|chain| - 1]);
    }
  }

  /** Only the clusters of the chain matter. */
  lemma {:induction false} FlatSame(clusters: seq<seq<Byte>>, clusters': seq<seq<Byte>>, chain: seq<nat>)
    requires |clusters'| == |clusters|
    requires forall i :: 0 <= i < |chain| && chain[i] < |clusters| ==> clusters'[chain[i]] == clusters[chain[i]]
    ensures Flat(clusters', chain) == Flat(clusters, chain)
  {
    if chain != [] {
      FlatSame(clusters, clusters', chain[..|chain| - 1]);
    }
  }

  /** The bytes before a cursor: off bytes into the k-th cluster of the chain. */
  function Before(clusters: seq<seq<Byte>>, chain: seq<nat>, k: nat, off: nat): seq<Byte>
    requires k < |chain| && chain[k] < |clusters| && off <= |clusters[chain[k]]|
  {
    Flat(clusters, chain[..k]) + clusters[chain[k]][..off]
  }

  lemma {:induction false} FlatTake(clusters: seq<seq<Byte>>, bytesPerCluster: nat, chain: seq<nat>, k: nat)
    requires Sized(clusters, bytesPerCluster) && Within(clusters, chain) && k <= |chain|
    ensures Base(bytesPerCluster, k) <= |Flat(clusters, chain)|
    ensures Flat(clusters, chain[..k]) == Flat(clusters, chain)[..Base(bytesPerCluster, k)]
    decreases |chain| - k
  {
    FlatLength(clusters, bytesPerCluster, chain[..k]);
    if k == |chain| {
      assert chain[..k] == chain;
    } else {
      FlatTake(clusters, bytesPerCluster, chain, k + 1);
      assert chain[..k + 1][..k] == chain[..k];
    }
  }

  /** A piece of a cluster is the corresponding piece of the file. */
  lemma FlatPiece(clusters: seq<seq<Byte>>, bytesPerCluster: nat, chain: seq<nat>, k: nat, off: nat, n: nat)
    requires Sized(clusters, bytesPerCluster) && Within(clusters, chain) && k < |chain| && off + n <= bytesPerCluster
    ensures Base(bytesPerCluster, k) + off + n <= |Flat(clusters, chain)|
    ensures clusters[chain[k]][off..off + n]
         == Flat(clusters, chain)[Base(bytesPerCluster, k) + off..Base(bytesPerCluster, k) + off + n]
  {
    hide Flat;
    FlatTake(clusters, bytesPerCluster, chain, k + 1);
    FlatLength(clusters, bytesPerCluster, chain[..k]);
    FlatStep(clusters, chain, k);
    Piece(Flat(clusters, chain), Flat(clusters, chain[..k]), clusters[chain[k]], off, n);
  }

  lemma {:induction false} BaseIs(bytesPerCluster: nat, k: nat)
    ensures Base(bytesPerCluster, k) == bytesPerCluster * k
  {
    if k > 0 {
      BaseIs(bytesPerCluster, k - 1);
      assert bytesPerCluster * k == bytesPerCluster * (k - 1) + bytesPerCluster;
    }
  }

  /** Byte by byte: those of the first cluster of the chain in their order, then those of the second, and so on. */
  lemma FlatByte(clusters: seq<seq<Byte>>, bytesPerCluster: nat, chain: seq<nat>, k: nat, off: nat)
    requires Sized(clusters, bytesPerCluster) && Within(clusters, chain) && k < |chain| && off < bytesPerCluster
    ensures 0 <= bytesPerCluster * k + off < |Flat(clusters, chain)|
    ensures Flat(clusters, chain)[bytesPerCluster * k + off] == clusters[chain[k]][off]
  {
    hide Flat;
    BaseIs(bytesPerCluster, k);
    FlatPiece(clusters, bytesPerCluster, chain, k, off, 1);
    var flat, at := Flat(clusters, chain), Base(bytesPerCluster, k) + off;
    assert clusters[chain[k]][off..off + 1][0] == flat[at..at + 1][0];
  }

  lemma FlatStep(clusters: seq<seq<Byte>>, chain: seq<nat>, k: nat)
    requires k < |chain| && chain[k] < |clusters|
    ensures Flat(clusters, chain[..k + 1]) == Flat(clusters, chain[..k]) + clusters[chain[k]]
  {
    assert chain[..k + 1][..k] == chain[..k];
  }

  lemma Piece(whole: seq<Byte>, head: seq<Byte>, part: seq<Byte>, off: nat, n: nat)
    requires |head| + |part| <= |whole| && whole[..|head| + |part|] == head + part && off + n <= |part|
    ensures part[off..off + n] == whole[|head| + off..|head| + off + n]
  {
    assert forall i :: 0 <= i < |part| ==> part[i] == (head + part)[|head| + i] == whole[|head| + i];
  }

  lemma BeforeIsPrefix(clusters: seq<seq<Byte>>, bytesPerCluster: nat, chain: seq<nat>, k: nat, off: nat)
    requires Sized(clusters, bytesPerCluster) && Within(clusters, chain) && k < |chain| && off <= bytesPerCluster
    ensures Base(bytesPerCluster, k) + off <= |Flat(clusters, chain)|
    ensures Before(clusters, chain, k, off) == Flat(clusters, chain)[..Base(bytesPerCluster, k) + off]
  {
    hide Flat;
    FlatPiece(clusters, bytesPerCluster, chain, k, 0, off);
    FlatTake(clusters, bytesPerCluster, chain, k);
    var flat := Flat(clusters, chain);
    var base := Base(bytesPerCluster, k);
    assert flat[..base + off] == flat[..base] + flat[base..base + off];
  }

  // ----- Storing -----

  /** Bytes stored into one cluster. */
  function Stored(clusters: seq<seq<Byte>>, c: nat, off: nat, data: seq<Byte>): seq<seq<Byte>>
    requires c < |clusters| && off + |data| <= |clusters[c]|
  {
    clusters[c := clusters[c][..off] + data + clusters[c][off + |data|..]]
  }

  /** Storing at the cursor appends to the bytes before it. */
  lemma StoreAppends(fat: seq<nat>, clusters: seq<seq<Byte>>, chain: seq<nat>, first: nat, k: nat, off: nat,
                     data: seq<Byte>)
    requires |fat| <= FIRST_END_MARK && ChainFrom(fat, first, chain) && k < |chain| && Within(clusters, chain)
    requires off + |data| <= |clusters[chain[k]]|
    ensures var clusters' := Stored(clusters, chain[k], off, data);
            && |clusters'[chain[k]]| == |clusters[chain[k]]|
            && Before(clusters', chain, k, off + |data|) == Before(clusters, chain, k, off) + data
  {
    var clusters' := Stored(clusters, chain[k], off, data);
    forall i | 0 <= i < k ensures chain[..k][i] != chain[k] {
      ChainDistinct(fat, first, chain, i, k);
    }
    FlatSame(clusters, clusters', chain[..k]);
    assert clusters'[chain[k]][..off + |data|] == clusters[chain[k]][..off] + data;
  }

  /** The end of a cluster is the beginning of the next. */
  lemma BeforeNext(clusters: seq<seq<Byte>>, bytesPerCluster: nat, chain: seq<nat>, k: nat)
    requires Sized(clusters, bytesPerCluster) && Within(clusters, chain) && k + 1 < |chain|
    ensures Before(clusters, chain, k, bytesPerCluster) == Before(clusters, chain, k + 1, 0)
  {
    assert chain[..k + 1][..k] == chain[..k];
    assert clusters[chain[k]][..bytesPerCluster] == clusters[chain[k]];
    assert clusters[chain[k + 1]][..0] == [];
  }

  // ----- How many bytes and clusters a write takes -----

  /** Clusters holding so many bytes. */
  function NumCluster(bytes: nat, bytesPerCluster: nat): nat
    requires bytesPerCluster > 0
  {
    if bytes == 0 then 0
    else if bytes <= bytesPerCluster then 1
    else 1 + NumCluster(bytes - bytesPerCluster, bytesPerCluster)
  }

  lemma MulAtMost(p: int, q: int, b: nat)
    requires p <= q
    ensures p * b <= q * b
  {
  }

  lemma DivStep(x: nat, b: nat)
    requires b > 0
    ensures (x + b) / b == x / b + 1
  {
    var p, q := (x + b) / b, x / b;
    assert q * b <= x < q * b + b;
    assert p * b <= x + b < p * b + b;
    assert (q + 2) * b == q * b + b + b;
    if p > q + 1 {
      MulAtMost(q + 2, p, b);
    } else if p < q + 1 {
      MulAtMost(p, q, b);
    }
  }

  lemma SmallDiv(x: nat, b: nat)
    requires x < b
    ensures x / b == 0
  {
  }

  /** NumCluster is the rounded-up quotient. */
  lemma {:induction false} NumClusterIsQuotient(bytes: nat, bytesPerCluster: nat)
    requires bytesPerCluster > 0
    ensures NumCluster(bytes, bytesPerCluster) == (bytes + bytesPerCluster - 1) / bytesPerCluster
    decreases bytes
  {
    if bytes == 0 {
      SmallDiv(bytesPerCluster - 1, bytesPerCluster);
    } else {
      DivStep(bytes - 1, bytesPerCluster);
      if bytes <= bytesPerCluster {
        SmallDiv(bytes - 1, bytesPerCluster);
      } else {
        NumClusterIsQuotient(bytes - bytesPerCluster, bytesPerCluster);
      }
    }
  }

  /**
   The number of bytes a write of len > 0 bytes stores when `total` are stored already and a new cluster
   begins.  Each piece is the smaller of a cluster and len, where len minus total would be meant.
   */
  function WriteTotal(len: nat, total: nat, bytesPerCluster: nat): (r: nat)
    requires bytesPerCluster > 0
    ensures r >= len
    decreases len - total
  {
    if total >= len then total
    else WriteTotal(len, total + Min(len, bytesPerCluster), bytesPerCluster)
  }

  /** A write stores exactly its bytes iff they fit into the current cluster or end with a cluster. */
  lemma WriteTotalExact(len: nat, room: nat, bytesPerCluster: nat)
    requires 0 < bytesPerCluster && room <= bytesPerCluster
    ensures WriteTotal(len, Min(len, room), bytesPerCluster) == len
       <==> (len <= room || (len <= bytesPerCluster && room == 0) || (len - room) % bytesPerCluster == 0)
  {
    if len > room {
      if len < bytesPerCluster {
        assert room > 0 ==> len - room < bytesPerCluster;
        assert (len - room) % bytesPerCluster == 0 <==> len == room by { SmallMod(len - room, bytesPerCluster); }
      } else {
        WholeClusters(len, room, bytesPerCluster);
      }
    }
  }

  /** Five bytes into a cluster of ten with room for three: the second piece is five bytes again, not two. */
  lemma FiveBytesCountEight()
    ensures WriteTotal(5, Min(5, 3), 10) == 8
  {
    assert WriteTotal(5, 8, 10) == 8;
  }

  lemma SmallMod(x: nat, b: nat)
    requires 0 < x < b
    ensures x % b != 0
  {
  }

  lemma ModStep(x: nat, b: nat)
    requires b > 0
    ensures (x + b) % b == x % b
  {
    DivStep(x, b);
    var q := x / b;
    assert (q + 1) * b == q * b + b;
  }

  lemma {:induction false} WholeClusters(len: nat, total: nat, bytesPerCluster: nat)
    requires 0 < bytesPerCluster <= len && total <= len
    ensures WriteTotal(len, total, bytesPerCluster) == len <==> (len - total) % bytesPerCluster == 0
    decreases len - total
  {
    if total < len {
      if total + bytesPerCluster <= len {
        ModStep(len - total - bytesPerCluster, bytesPerCluster);
        WholeClusters(len, total + bytesPerCluster, bytesPerCluster);
      } else {
        SmallMod(len - total, bytesPerCluster);
      }
    }
  }

  /**
   The clusters allocated by a write on its way, when `total` bytes are stored, a new cluster begins, and
   `ahead` clusters of the chain are left: once the chain is used up, every further cluster makes
   room for all that remains, although only one is filled.
   */
  function Allocations(len: nat, total: nat, ahead: nat, bytesPerCluster: nat): nat
    requires bytesPerCluster > 0
    decreases len - total
  {
    if total >= len then 0
    else
      var next := total + Min(len, bytesPerCluster);
      if ahead > 0 then Allocations(len, next, ahead - 1, bytesPerCluster)
      else NumCluster(len - total, bytesPerCluster) + Allocations(len, next, 0, bytesPerCluster)
  }

  /** The remaining bytes need one cluster less after a cluster was filled. */
  lemma NumClusterStep(len: nat, total: nat, bytesPerCluster: nat)
    requires bytesPerCluster > 0 && total < len
    ensures var next := total + Min(len, bytesPerCluster);
            next < len ==> NumCluster(len - next, bytesPerCluster) == NumCluster(len - total, bytesPerCluster) - 1
    ensures NumCluster(len - total, bytesPerCluster) >= 1
  {
  }

  /** Nothing is allocated if the chain is long enough already. */
  lemma {:induction false} NoAllocations(len: nat, total: nat, ahead: nat, bytesPerCluster: nat)
    requires bytesPerCluster > 0 && (total < len ==> NumCluster(len - total, bytesPerCluster) <= ahead)
    ensures Allocations(len, total, ahead, bytesPerCluster) == 0
    decreases len - total
  {
    if total < len {
      NumClusterStep(len, total, bytesPerCluster);
      NoAllocations(len, total + Min(len, bytesPerCluster), ahead - 1, bytesPerCluster);
    }
  }
}
