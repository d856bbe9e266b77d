/**
 The file allocation table: an array of 32-bit entries in which each cluster names the next cluster of
 its file, 0 means free and anything from 0x0ffffff8 up ends a chain.
 */
module ClusterChain {

  const END_OF_CLUSTERCHAIN: nat := 0x0fff_ffff
  const FIRST_END_MARK: nat := 0x0fff_fff8

  predicate IsEndOfClusterchain(entry: nat) {
    entry >= FIRST_END_MARK
  }

  function NextCluster(fat: seq<nat>, cluster: nat): nat
    requires cluster < |fat|
  {
    if IsEndOfClusterchain(fat[cluster]) then END_OF_CLUSTERCHAIN else fat[cluster]
  }

  // ----- Chains -----

  predicate InRange(fat: seq<nat>, c: nat) {
    2 <= c < |fat|
  }

  predicate Used(fat: seq<nat>, c: nat) {
    InRange(fat, c) && fat[c] != 0
  }

  /** The clusters visited from c, up to and including the one that ends the chain. */
  predicate ChainFrom(fat: seq<nat>, c: nat, chain: seq<nat>) {
    && |chain| > 0 && chain[0] == c
    && (forall i :: 0 <= i < |chain| ==> InRange(fat, chain[i]))
    && (forall i :: 0 <= i < |chain| - 1 ==> fat[chain[i]] == chain[i + 1])
    && IsEndOfClusterchain(fat[chain[|chain| - 1]])
  }

  ghost predicate HasChain(fat: seq<nat>, c: nat) {
    exists chain :: ChainFrom(fat, c, chain)
  }

  /** Every used cluster's chain ends, and no two clusters go on to the same one. */
  ghost predicate Sound(fat: seq<nat>) {
    && |fat| <= FIRST_END_MARK
    && (forall c: nat :: Used(fat, c) ==> HasChain(fat, c))
    && (forall c: nat, d: nat :: Used(fat, c) && Used(fat, d) && c != d && !IsEndOfClusterchain(fat[c]) ==>
        fat[c] != fat[d])
  }

  lemma LinkIsNoEnd(fat: seq<nat>, c: nat, chain: seq<nat>)
    requires |fat| <= FIRST_END_MARK && ChainFrom(fat, c, chain)
    ensures forall i :: 0 <= i < |chain| - 1 ==> !IsEndOfClusterchain(fat[chain[i]])
  {
    forall i | 0 <= i < |chain| - 1 ensures !IsEndOfClusterchain(fat[chain[i]]) {
      assert fat[chain[i]] == chain[i + 1] && InRange(fat, chain[i + 1]);
    }
  }

  /** A chain is determined by the cluster it starts at. */
  lemma {:induction false} ChainUnique(fat: seq<nat>, c: nat, a: seq<nat>, b: seq<nat>)
    requires |fat| <= FIRST_END_MARK && ChainFrom(fat, c, a) && ChainFrom(fat, c, b)
    ensures a == b
    decreases |a|
  {
    LinkIsNoEnd(fat, c, a);
    LinkIsNoEnd(fat, c, b);
    if |a| > 1 && |b| > 1 {
      ChainTail(fat, c, a);
      ChainTail(fat, c, b);
      ChainUnique(fat, a[1], a[1..], b[1..]);
      assert a == [c] + a[1..] && b == [c] + b[1..];
    }
  }

  lemma ChainTail(fat: seq<nat>, c: nat, chain: seq<nat>)
    requires ChainFrom(fat, c, chain) && |chain| > 1
    ensures ChainFrom(fat, chain[1], chain[1..])
  {
    var tail := chain[1..];
    forall i | 0 <= i < |tail| - 1 ensures fat[tail[i]] == tail[i + 1] {
      assert fat[chain[i + 1]] == chain[i + 2];
    }
  }

  lemma {:induction false} ChainSuffix(fat: seq<nat>, c: nat, chain: seq<nat>, k: nat)
    requires ChainFrom(fat, c, chain) && k < |chain|
    ensures ChainFrom(fat, chain[k], chain[k..])
    decreases k
  {
    if k == 0 {
      assert chain[0..] == chain;
    } else {
      ChainSuffix(fat, c, chain, k - 1);
      ChainTail(fat, chain[k - 1], chain[k - 1..]);
      assert chain[k - 1..][1..] == chain[k..];
    }
  }

  /** A chain that ends visits no cluster twice. */
  lemma ChainDistinct(fat: seq<nat>, c: nat, chain: seq<nat>, i: nat, j: nat)
    requires |fat| <= FIRST_END_MARK && ChainFrom(fat, c, chain) && i < j < |chain|
    ensures chain[i] != chain[j]
  {
    if chain[i] == chain[j] {
      ChainSuffix(fat, c, chain, i);
      ChainSuffix(fat, c, chain, j);
      ChainUnique(fat, chain[i], chain[i..], chain[j..]);
    }
  }

  /** Nobody goes on to c. */
  ghost predicate Head(fat: seq<nat>, c: nat) {
    Used(fat, c) && forall d: nat :: Used(fat, d) ==> fat[d] != c
  }

  /** Different files share no cluster. */
  lemma {:induction false} HeadsDisjoint(fat: seq<nat>, c: nat, d: nat, a: seq<nat>, b: seq<nat>, i: nat, j: nat)
    requires Sound(fat) && Head(fat, c) && Head(fat, d) && c != d
    requires ChainFrom(fat, c, a) && ChainFrom(fat, d, b) && i < |a| && j < |b|
    ensures a[i] != b[j]
    decreases i
  {
    if a[i] == b[j] {
      if i > 0 {
        assert fat[a[i - 1]] == a[i];
      }
      if j > 0 {
        assert fat[b[j - 1]] == b[j];
      }
      if i > 0 && j > 0 {
        HeadsDisjoint(fat, c, d, a, b, i - 1, j - 1);
      }
    }
  }

  // ----- Free clusters -----

  function FreeCount(fat: seq<nat>, from: nat): nat
    decreases |fat| - from
  {
    if from >= |fat| then 0 else (if fat[from] == 0 then 1 else 0) + FreeCount(fat, from + 1)
  }

  /** The first n free clusters from `from` on, or all of them if there are fewer. */
  function FreeFrom(fat: seq<nat>, from: nat, n: nat): (r: seq<nat>)
    ensures |r| == if FreeCount(fat, from) >= n then n else FreeCount(fat, from)
    ensures forall i :: 0 <= i < |r| ==> from <= r[i] < |fat| && fat[r[i]] == 0
    ensures forall i, j :: 0 <= i < j < |r| ==> r[i] < r[j]
    ensures forall c :: from <= c < |fat| && fat[c] == 0 && c !in r ==> |r| == n && forall f :: f in r ==> f < c
    decreases |fat| - from
  {
    if n == 0 || from >= |fat| then []
    else if fat[from] == 0 then [from] + FreeFrom(fat, from + 1, n - 1)
    else FreeFrom(fat, from + 1, n)
  }

  lemma {:induction false} FreeCountSame(a: seq<nat>, b: seq<nat>, from: nat)
    requires |a| == |b| && forall c :: from <= c < |a| ==> (a[c] == 0 <==> b[c] == 0)
    ensures FreeCount(a, from) == FreeCount(b, from)
    decreases |a| - from
  {
    if from < |a| {
      FreeCountSame(a, b, from + 1);
    }
  }

  /** Filling an entry uses up a free cluster if the entry was free. */
  lemma {:induction false} FreeCountStore(a: seq<nat>, from: nat, k: nat, v: nat)
    requires from <= k < |a| && v != 0
    ensures FreeCount(a[k := v], from) == FreeCount(a, from) - (if a[k] == 0 then 1 else 0)
    decreases k - from
  {
    if from < k {
      FreeCountStore(a, from + 1, k, v);
    } else {
      FreeCountSame(a, a[k := v], k + 1);
    }
  }

  // ----- Extending a chain -----

  /** The end of a chain, followed by clusters that are in range, free, and all different. */
  predicate Addable(fat: seq<nat>, path: seq<nat>) {
    && |path| > 0 && Used(fat, path[0]) && IsEndOfClusterchain(fat[path[0]])
    && (forall i :: 1 <= i < |path| ==> InRange(fat, path[i]) && fat[path[i]] == 0)
    && (forall i, j :: 0 <= i < j < |path| ==> path[i] != path[j])
  }

  /** Each cluster of the path goes on to the next and the last one ends the chain; nothing else changed. */
  predicate Extended(fat: seq<nat>, fat': seq<nat>, path: seq<nat>)
    requires |path| > 0
  {
    && |fat'| == |fat|
    && (forall i :: 0 <= i < |path| ==> path[i] < |fat'|)
    && (forall i :: 0 <= i < |path| - 1 ==> fat'[path[i]] == path[i + 1])
    && fat'[path[|path| - 1]] == END_OF_CLUSTERCHAIN
    && (forall c :: 0 <= c < |fat| && c !in path ==> fat'[c] == fat[c])
  }

  function Last(chain: seq<nat>): nat
    requires |chain| > 0
  {
    chain[|chain| - 1]
  }

  /** A chain that ended where the path begins goes on through the path. */
  function Longer(chain: seq<nat>, path: seq<nat>): seq<nat>
    requires |chain| > 0 && |path| > 0
  {
    if Last(chain) == path[0] then chain[..|chain| - 1] + path else chain
  }

  /** A chain meets the path only where it ends. */
  lemma OffThePath(fat: seq<nat>, path: seq<nat>, c: nat, chain: seq<nat>)
    requires |fat| <= FIRST_END_MARK && Addable(fat, path) && ChainFrom(fat, c, chain)
    ensures forall i :: 0 <= i < |chain| - 1 ==> chain[i] !in path
    ensures Last(chain) == path[0] || Last(chain) !in path
  {
    LinkIsNoEnd(fat, c, chain);
    forall i | 0 <= i < |chain| - 1 ensures chain[i] !in path {
      assert fat[chain[i]] == chain[i + 1];
    }
  }

  /** The chain that ended at path[0] goes on through the path; every other chain is as it was. */
  lemma ExtendedChain(fat: seq<nat>, fat': seq<nat>, path: seq<nat>, c: nat, chain: seq<nat>)
    requires |fat| <= FIRST_END_MARK && Addable(fat, path) && Extended(fat, fat', path) && ChainFrom(fat, c, chain)
    ensures ChainFrom(fat', c, Longer(chain, path))
  {
    OffThePath(fat, path, c, chain);
    if Last(chain) == path[0] {
      var n := |chain| - 1;
      AddedChain(fat, fat', path, 0);
      assert path[0..] == path;
      JoinChains(fat', c, chain[..n], path);
    }
  }

  lemma ExtendedChains(fat: seq<nat>, fat': seq<nat>, path: seq<nat>)
    requires |fat| <= FIRST_END_MARK && Addable(fat, path) && Extended(fat, fat', path)
    ensures forall c, chain :: ChainFrom(fat, c, chain) ==> ChainFrom(fat', c, Longer(chain, path))
  {
    forall c, chain | ChainFrom(fat, c, chain) ensures ChainFrom(fat', c, Longer(chain, path)) {
      ExtendedChain(fat, fat', path, c, chain);
    }
  }

  lemma JoinChains(fat: seq<nat>, c: nat, front: seq<nat>, path: seq<nat>)
    requires |path| > 0 && ChainFrom(fat, path[0], path) && c == (front + path)[0]
    requires forall i :: 0 <= i < |front| ==> InRange(fat, front[i]) && fat[front[i]] == (front + path)[i + 1]
    ensures ChainFrom(fat, c, front + path)
  {
    var all := front + path;
    var n := |front|;
    forall i | 0 <= i < |all| - 1 ensures fat[all[i]] == all[i + 1] {
      if i < n {
        assert InRange(fat, front[i]);
      } else {
        assert fat[path[i - n]] == path[i - n + 1];
      }
    }
  }

  lemma AddedChain(fat: seq<nat>, fat': seq<nat>, path: seq<nat>, k: nat)
    requires Addable(fat, path) && Extended(fat, fat', path) && k < |path|
    ensures ChainFrom(fat', path[k], path[k..])
  {
    var rest := path[k..];
    forall i | 0 <= i < |rest| - 1 ensures fat'[rest[i]] == rest[i + 1] {
      assert fat'[path[k + i]] == path[k + i + 1];
    }
  }

  /** Chains stay finite and apart. */
  lemma ExtendedSound(fat: seq<nat>, fat': seq<nat>, path: seq<nat>)
    requires Sound(fat) && Addable(fat, path) && Extended(fat, fat', path)
    ensures Sound(fat')
  {
    hide ChainFrom, Addable, Extended;
    SameSize(fat, fat', path);
    forall c: nat | Used(fat', c) ensures HasChain(fat', c) {
      ExtendedHasChain(fat, fat', path, c);
    }
    forall c: nat, d: nat | Used(fat', c) && Used(fat', d) && c != d && !IsEndOfClusterchain(fat'[c])
      ensures fat'[c] != fat'[d]
    {
      ExtendedApart(fat, fat', path, c, d);
    }
  }

  lemma SameSize(fat: seq<nat>, fat': seq<nat>, path: seq<nat>)
    requires Addable(fat, path) && Extended(fat, fat', path)
    ensures |fat'| == |fat|
  {
  }

  lemma ExtendedHasChain(fat: seq<nat>, fat': seq<nat>, path: seq<nat>, c: nat)
    requires Sound(fat) && Addable(fat, path) && Extended(fat, fat', path) && Used(fat', c)
    ensures HasChain(fat', c)
  {
    hide ChainFrom;
    if c in path {
      var k :| 0 <= k < |path| && path[k] == c;
      AddedChain(fat, fat', path, k);
    } else {
      assert HasChain(fat, c);
      var chain :| ChainFrom(fat, c, chain);
      ExtendedChain(fat, fat', path, c, chain);
    }
  }

  /** Where an entry of the extended table leads: to an added cluster exactly from the path. */
  lemma ExtendedNext(fat: seq<nat>, fat': seq<nat>, path: seq<nat>, c: nat)
    requires Sound(fat) && Addable(fat, path) && Extended(fat, fat', path)
    requires Used(fat', c) && !IsEndOfClusterchain(fat'[c])
    ensures c in path ==> exists i :: 0 <= i < |path| - 1 && c == path[i] && fat'[c] == path[i + 1]
    ensures c !in path ==> Used(fat, c) && fat'[c] == fat[c] && Used(fat, fat[c])
  {
    if c in path {
      var i :| 0 <= i < |path| && path[i] == c;
      assert i < |path| - 1 && fat'[path[i]] == path[i + 1];
    } else {
      assert HasChain(fat, c);
      var chain :| ChainFrom(fat, c, chain);
      assert |chain| > 1 && fat[chain[0]] == chain[1];
      if |chain| > 2 {
        assert fat[chain[1]] == chain[2];
      }
    }
  }

  lemma ExtendedApart(fat: seq<nat>, fat': seq<nat>, path: seq<nat>, c: nat, d: nat)
    requires Sound(fat) && Addable(fat, path) && Extended(fat, fat', path)
    requires Used(fat', c) && Used(fat', d) && c != d && !IsEndOfClusterchain(fat'[c])
    ensures fat'[c] != fat'[d]
  {
    ExtendedNext(fat, fat', path, c);
    if fat'[c] == fat'[d] {
      ExtendedNext(fat, fat', path, d);
    }
  }

  /** The path ExtendCluster builds behind the end of a chain: the first n free clusters, in order. */
  function NewPath(fat: seq<nat>, end: nat, n: nat): seq<nat> {
    [end] + FreeFrom(fat, 2, n)
  }

  lemma NewPathAddable(fat: seq<nat>, c: nat, chain: seq<nat>, n: nat)
    requires |fat| <= FIRST_END_MARK && ChainFrom(fat, c, chain)
    ensures Addable(fat, NewPath(fat, Last(chain), n))
  {
  }

  /**
   Walks to the end of the chain and links the first n free clusters behind it, in ascending order.
   The table must hold that many free clusters: the scan has no bound of its own.
   */
  method ExtendCluster(fat: array<nat>, eocCluster: nat, n: nat, ghost chain: seq<nat>) returns (last: nat)
    requires Sound(fat[..]) && ChainFrom(fat[..], eocCluster, chain) && FreeCount(fat[..], 2) >= n
    modifies fat
    ensures var path := NewPath(old(fat[..]), Last(chain), n);
            && Extended(old(fat[..]), fat[..], path) && Addable(old(fat[..]), path)
            && ChainFrom(fat[..], eocCluster, Longer(chain, path)) && last == path[n]
            && (forall c, other :: ChainFrom(old(fat[..]), c, other) ==> ChainFrom(fat[..], c, Longer(other, path)))
    ensures Sound(fat[..]) && FreeCount(fat[..], 2) == old(FreeCount(fat[..], 2)) - n
  {
    hide Sound, ChainFrom, Addable, Extended, FreeFrom;
    SoundSize(fat[..]);
    var end := WalkToEnd(fat, eocCluster, chain);
    ghost var was := fat[..];
    ghost var path := NewPath(was, end, n);
    NewPathAddable(was, eocCluster, chain, n);
    last := LinkFree(fat, end, n, path);
    ExtendedSound(was, fat[..], path);
    ExtendedChains(was, fat[..], path);
  }

  lemma SoundSize(fat: seq<nat>)
    requires Sound(fat)
    ensures |fat| <= FIRST_END_MARK
  {
  }

  method WalkToEnd(fat: array<nat>, start: nat, ghost chain: seq<nat>) returns (end: nat)
    requires fat.Length <= FIRST_END_MARK && ChainFrom(fat[..], start, chain)
    ensures end == Last(chain)
  {
    LinkIsNoEnd(fat[..], start, chain);
    end := start;
    ghost var k := 0;
    while !IsEndOfClusterchain(fat[end])
      invariant 0 <= k < |chain| && end == chain[k]
      decreases |chain| - k
    {
      assert fat[..][chain[k]] == fat[end];
      assert k < |chain| - 1;
      end := fat[end];
      k := k + 1;
    }
  }

  /** The first k links of the path are stored; nothing else changed. */
  predicate Linked(fat: seq<nat>, fat': seq<nat>, path: seq<nat>, k: nat) {
    && k < |path| && |fat'| == |fat|
    && (forall i :: 0 <= i < |path| ==> path[i] < |fat'|)
    && (forall i :: 0 <= i < k ==> fat'[path[i]] == path[i + 1])
    && (forall c :: 0 <= c < |fat| && c !in path[..k] ==> fat'[c] == fat[c])
  }

  lemma LinkStep(fat: seq<nat>, fat': seq<nat>, path: seq<nat>, k: nat)
    requires Addable(fat, path) && Linked(fat, fat', path, k)
    ensures k + 1 < |path| ==> Linked(fat, fat'[path[k] := path[k + 1]], path, k + 1)
    ensures k + 1 == |path| ==> Extended(fat, fat'[path[k] := END_OF_CLUSTERCHAIN], path)
    ensures fat'[path[k]] == fat[path[k]]
  {
    assert path[..k + 1] == path[..k] + [path[k]];
    if k + 1 == |path| {
      assert path[..k + 1] == path;
    }
  }

  /** From `candidate` on, the first free clusters are the path from k + 1 on. */
  predicate Scanned(fat: seq<nat>, candidate: nat, path: seq<nat>, k: nat) {
    && k < |path| && FreeFrom(fat, candidate, |path| - k - 1) == path[k + 1..]
    && FreeCount(fat, candidate) >= |path| - k - 1
  }

  lemma ScanStep(fat: seq<nat>, candidate: nat, path: seq<nat>, k: nat)
    requires k + 1 < |path| && Scanned(fat, candidate, path, k)
    ensures candidate < |fat|
    ensures fat[candidate] != 0 ==> Scanned(fat, candidate + 1, path, k)
    ensures fat[candidate] == 0 ==> path[k + 1] == candidate && Scanned(fat, candidate + 1, path, k + 1)
  {
    if fat[candidate] == 0 {
      assert path[k + 2..] == path[k + 1..][1..];
    }
  }

  /** From `candidate` on, the same entries are free as before. */
  predicate Unscanned(was: seq<nat>, now: seq<nat>, candidate: nat) {
    |was| == |now| && forall c :: candidate <= c < |was| ==> (now[c] == 0 <==> was[c] == 0)
  }

  lemma UnscannedAtFirst(fat: seq<nat>)
    ensures Unscanned(fat, fat, 2)
  {
  }

  lemma UnscannedStep(was: seq<nat>, now: seq<nat>, candidate: nat, current: nat)
    requires Unscanned(was, now, candidate) && candidate < |was| && current < |was| && candidate > 0
    ensures now[candidate] == 0 <==> was[candidate] == 0
    ensures Unscanned(was, now, candidate + 1)
    ensures current < candidate || now[current] != 0 ==> Unscanned(was, now[current := candidate], candidate + 1)
  {
  }

  /** The scan for free clusters behind the end of a chain. */
  method LinkFree(fat: array<nat>, end: nat, n: nat, ghost path: seq<nat>) returns (current: nat)
    requires FreeCount(fat[..], 2) >= n && path == NewPath(fat[..], end, n) && Addable(fat[..], path)
    modifies fat
    ensures Extended(old(fat[..]), fat[..], path) && current == path[n]
    ensures FreeCount(fat[..], 2) == FreeCount(old(fat[..]), 2) - n
  {
    hide Addable, Extended, FreeFrom, FreeCount, Scanned, Linked, Unscanned;
    ghost var was := fat[..];
    UnscannedAtFirst(was);
    var numAllocated := 0;
    current := end;
    var candidate := 2;
    Unlinked(was, path, end, n);
    while numAllocated < n
      invariant 2 <= candidate && 0 <= numAllocated <= n && |path| == n + 1
      invariant Scanned(was, candidate, path, numAllocated)
      invariant current == path[numAllocated] && (numAllocated > 0 ==> current < candidate)
      invariant Linked(was, fat[..], path, numAllocated)
      invariant Unscanned(was, fat[..], candidate)
      invariant FreeCount(fat[..], 2) == FreeCount(was, 2) - (if numAllocated > 0 then numAllocated - 1 else 0)
      decreases fat.Length - candidate
    {
      ScanStep(was, candidate, path, numAllocated);
      UnscannedStep(was, fat[..], candidate, current);
      if fat[candidate] != 0 {
        candidate := candidate + 1;
        continue;
      }
      FreeCountStore(fat[..], 2, current, candidate);
      LinkStep(was, fat[..], path, numAllocated);
      fat[current] := candidate;
      current := candidate;
      numAllocated := numAllocated + 1;
      candidate := candidate + 1;
    }
    FreeCountStore(fat[..], 2, current, END_OF_CLUSTERCHAIN);
    LinkStep(was, fat[..], path, n);
    fat[current] := END_OF_CLUSTERCHAIN;
  }

  lemma Unlinked(fat: seq<nat>, path: seq<nat>, end: nat, n: nat)
    requires FreeCount(fat, 2) >= n && path == NewPath(fat, end, n) && Addable(fat, path)
    ensures Linked(fat, fat, path, 0) && |path| == n + 1 && Scanned(fat, 2, path, 0)
    ensures forall i :: 0 <= i < |path| ==> 2 <= path[i] < |fat|
    ensures fat[path[0]] != 0 && forall i :: 1 <= i < |path| ==> fat[path[i]] == 0
  {
  }

  // ----- A new chain -----

  lemma {:induction false} FreeFromSkip(fat: seq<nat>, fat': seq<nat>, from: nat, first: nat, n: nat)
    requires from <= first < |fat| && |fat'| == |fat|
    requires forall c :: from <= c < first ==> fat[c] != 0
    requires forall c :: first < c < |fat| ==> fat'[c] == fat[c]
    requires forall c :: from <= c <= first ==> fat'[c] != 0
    requires fat[first] == 0
    ensures FreeFrom(fat, from, n + 1) == [first] + FreeFrom(fat', from, n)
    decreases first - from
  {
    if from < first {
      FreeFromSkip(fat, fat', from + 1, first, n);
    } else {
      FreeFromSame(fat, fat', first + 1, n);
    }
  }

  lemma {:induction false} FreeFromSame(a: seq<nat>, b: seq<nat>, from: nat, n: nat)
    requires |a| == |b| && forall c :: from <= c < |a| ==> a[c] == b[c]
    ensures FreeFrom(a, from, n) == FreeFrom(b, from, n)
    decreases |a| - from
  {
    if from < |a| && n > 0 {
      assert a[from] == b[from];
      FreeFromSame(a, b, from + 1, if a[from] == 0 then n - 1 else n);
    }
  }

  lemma FreshChain(fat: seq<nat>, first: nat, c: nat, chain: seq<nat>)
    requires |fat| <= FIRST_END_MARK && InRange(fat, first) && fat[first] == 0 && ChainFrom(fat, c, chain)
    ensures ChainFrom(fat[first := END_OF_CLUSTERCHAIN], c, chain)
  {
    forall i | 0 <= i < |chain| ensures chain[i] != first {
      assert i < |chain| - 1 ==> fat[chain[i]] == chain[i + 1];
    }
  }

  lemma FreshChains(fat: seq<nat>, first: nat)
    requires Sound(fat) && InRange(fat, first) && fat[first] == 0
    ensures forall c, chain :: ChainFrom(fat, c, chain) ==> ChainFrom(fat[first := END_OF_CLUSTERCHAIN], c, chain)
  {
    forall c, chain | ChainFrom(fat, c, chain) ensures ChainFrom(fat[first := END_OF_CLUSTERCHAIN], c, chain) {
      FreshChain(fat, first, c, chain);
    }
  }

  /** A free cluster made into a chain of its own disturbs no other chain. */
  lemma FreshSound(fat: seq<nat>, first: nat)
    requires Sound(fat) && InRange(fat, first) && fat[first] == 0
    ensures Sound(fat[first := END_OF_CLUSTERCHAIN])
    ensures ChainFrom(fat[first := END_OF_CLUSTERCHAIN], first, [first])
  {
    hide ChainFrom;
    var fat' := fat[first := END_OF_CLUSTERCHAIN];
    SingleChain(fat', first);
    forall c: nat | Used(fat', c) ensures HasChain(fat', c) {
      if c != first {
        assert HasChain(fat, c);
        var chain :| ChainFrom(fat, c, chain);
        FreshChain(fat, first, c, chain);
      }
    }
  }

  lemma SingleChain(fat: seq<nat>, c: nat)
    requires InRange(fat, c) && IsEndOfClusterchain(fat[c])
    ensures ChainFrom(fat, c, [c])
  {
  }

  /** The first free cluster becomes a chain of its own. */
  method TakeFirstFree(fat: array<nat>, ghost n: nat) returns (firstCluster: nat)
    requires Sound(fat[..]) && FreeCount(fat[..], 2) >= 1
    modifies fat
    ensures InRange(old(fat[..]), firstCluster) && old(fat[firstCluster]) == 0
    ensures fat[..] == old(fat[..])[firstCluster := END_OF_CLUSTERCHAIN]
    ensures FreeFrom(old(fat[..]), 2, n + 1) == [firstCluster] + FreeFrom(fat[..], 2, n)
    ensures FreeCount(fat[..], 2) == old(FreeCount(fat[..], 2)) - 1
  {
    hide Sound;
    firstCluster := 2;
    while fat[firstCluster] != 0
      invariant 2 <= firstCluster < fat.Length
      invariant FreeCount(fat[..], firstCluster) == FreeCount(fat[..], 2)
      invariant forall c :: 2 <= c < firstCluster ==> fat[c] != 0
      decreases fat.Length - firstCluster
    {
      firstCluster := firstCluster + 1;
    }
    ghost var was := fat[..];
    FreeCountStore(was, 2, firstCluster, END_OF_CLUSTERCHAIN);
    fat[firstCluster] := END_OF_CLUSTERCHAIN;
    assert fat[..] == was[firstCluster := END_OF_CLUSTERCHAIN];
    FreeFromSkip(was, fat[..], 2, firstCluster, n);
  }

  /** A new chain of max(n, 1) clusters, the first free ones in ascending order; every other chain is as it was. */
  method AllocateClusterChain(fat: array<nat>, n: nat) returns (firstCluster: nat)
    requires Sound(fat[..]) && FreeCount(fat[..], 2) >= AtLeastOne(n)
    modifies fat
    ensures var added := FreeFrom(old(fat[..]), 2, AtLeastOne(n));
            && |added| == AtLeastOne(n) && firstCluster == added[0] && ChainFrom(fat[..], firstCluster, added)
            && (forall c, other :: ChainFrom(old(fat[..]), c, other) ==> ChainFrom(fat[..], c, other))
            && (forall c :: 0 <= c < fat.Length && c !in added ==> fat[c] == old(fat[c]))
    ensures Sound(fat[..]) && FreeCount(fat[..], 2) == old(FreeCount(fat[..], 2)) - AtLeastOne(n)
  {
    hide Sound, ChainFrom, Addable, FreeCount, FreeFrom;
    ghost var was := fat[..];
    firstCluster := TakeFirstFree(fat, AtLeastOne(n) - 1);
    ghost var one := fat[..];
    FreshSound(was, firstCluster);
    FreshChains(was, firstCluster);
    if n > 1 {
      GrowFresh(fat, firstCluster, n, was);
    } else {
      assert FreeFrom(was, 2, 1) == [firstCluster];
    }
  }

  /** The rest of a new chain behind its first cluster. */
  method GrowFresh(fat: array<nat>, firstCluster: nat, n: nat, ghost was: seq<nat>)
    requires n > 1 && Sound(fat[..]) && ChainFrom(fat[..], firstCluster, [firstCluster])
    requires FreeCount(fat[..], 2) >= n - 1
    requires |was| == fat.Length && firstCluster < |was| && was[firstCluster] == 0
    requires fat[..] == was[firstCluster := END_OF_CLUSTERCHAIN]
    requires forall c, chain :: ChainFrom(was, c, chain) ==> ChainFrom(fat[..], c, chain)
    requires FreeFrom(was, 2, n) == [firstCluster] + FreeFrom(fat[..], 2, n - 1)
    modifies fat
    ensures ChainFrom(fat[..], firstCluster, FreeFrom(was, 2, n))
    ensures forall c, chain :: ChainFrom(was, c, chain) ==> ChainFrom(fat[..], c, chain)
    ensures forall c :: 0 <= c < fat.Length && c !in FreeFrom(was, 2, n) ==> fat[c] == was[c]
    ensures Sound(fat[..]) && FreeCount(fat[..], 2) == old(FreeCount(fat[..], 2)) - (n - 1)
  {
    hide Sound, ChainFrom, Addable, FreeCount, FreeFrom, Extended;
    ghost var one := fat[..];
    ghost var path := NewPath(one, firstCluster, n - 1);
    var _ := ExtendCluster(fat, firstCluster, n - 1, [firstCluster]);
    assert path == FreeFrom(was, 2, n) && Longer([firstCluster], path) == path;
    ghost var now := fat[..];
    UnrelatedChains(was, one, now, path);
    ElsewhereSame(was, one, now, path);
  }

  function AtLeastOne(n: nat): nat {
    if n > 1 then n else 1
  }

  lemma ElsewhereSame(fat: seq<nat>, one: seq<nat>, fat': seq<nat>, path: seq<nat>)
    requires |path| > 0 && Extended(one, fat', path) && |one| == |fat|
    requires forall c :: 0 <= c < |fat| && c != path[0] ==> one[c] == fat[c]
    ensures forall c :: 0 <= c < |fat| && c !in path ==> fat'[c] == fat[c]
  {
  }

  /** No chain of the old table ended at a cluster that was free in it. */
  lemma UnrelatedChains(fat: seq<nat>, one: seq<nat>, fat': seq<nat>, path: seq<nat>)
    requires |path| > 0 && path[0] < |fat| && fat[path[0]] == 0
    requires forall c, chain :: ChainFrom(fat, c, chain) ==> ChainFrom(one, c, chain)
    requires forall c, chain :: ChainFrom(one, c, chain) ==> ChainFrom(fat', c, Longer(chain, path))
    ensures forall c, chain :: ChainFrom(fat, c, chain) ==> ChainFrom(fat', c, chain)
  {
    forall c, chain | ChainFrom(fat, c, chain) ensures ChainFrom(fat', c, chain) {
      assert ChainFrom(one, c, chain) && IsEndOfClusterchain(fat[Last(chain)]);
      assert Longer(chain, path) == chain;
    }
  }
}
