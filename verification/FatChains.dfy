/** Cluster chains: following them, the sectors they cover and the bytes they hold. */
module FatChains {
  import opened Bytes
  import opened FatLayout
  import opened Ranges

  /** Where the chain goes after a cluster. */
  datatype Step = End | Bad | Link(next: nat)

  function Next(g: Geometry, d: Disk, c: nat): Step {
    var v := FatEntry(g, d, c);
    if v >= g.fatType.EndMark() then End else if v == g.fatType.BadMark() then Bad else Link(v)
  }

  /** Whether `clusters` clusters hold the `want` bytes asked for. */
  predicate Covered(g: Geometry, clusters: nat, want: Option<nat>) {
    want.Some? && clusters * g.ClusterSize() >= want.value
  }

  /** The plain walk: cluster by cluster from `at`, checking each, until the chain ends or `want`
      bytes are covered. `done` is where it has been. */
  function Walk(g: Geometry, d: Disk, at: Option<nat>, done: seq<nat>, want: Option<nat>): (r: Result<seq<nat>>)
    decreases g.clusterCount - |done|
  {
    if at.None? || Covered(g, |done|, want) then Ok(done)
    else if !g.IsCluster(at.value) then Err(BadCluster(at.value))
    else if |done| >= g.clusterCount then Err(ChainLoop)
    else match Next(g, d, at.value)
      case End => Walk(g, d, None, done + [at.value], want)
      case Bad => Err(BadCluster(at.value))
      case Link(next) => Walk(g, d, Some(next), done + [at.value], want)
  }

  /** Checked clusters that follow each other. */
  predicate IsPath(g: Geometry, d: Disk, ch: seq<nat>) {
    && (forall i :: 0 <= i < |ch| ==> g.IsCluster(ch[i]))
    && (forall i :: 0 <= i < |ch| - 1 ==> Next(g, d, ch[i]) == Link(ch[i + 1]))
  }

  /** A whole chain, terminated. */
  predicate IsChain(g: Geometry, d: Disk, ch: seq<nat>) {
    |ch| > 0 && IsPath(g, d, ch) && Next(g, d, ch[|ch| - 1]) == End
  }

  /** A chain never visits a cluster twice. */
  lemma {:induction false} ChainHasNoRepeats(g: Geometry, d: Disk, ch: seq<nat>, i: nat, j: nat)
    requires IsChain(g, d, ch) && i < j < |ch|
    ensures ch[i] != ch[j]
    decreases |ch| - j
  {
    if ch[i] == ch[j] {
      assert Next(g, d, ch[i]) == Link(ch[i + 1]);
      if j < |ch| - 1 {
        assert Next(g, d, ch[j]) == Link(ch[j + 1]);
        ChainHasNoRepeats(g, d, ch, i + 1, j + 1);
      }
    }
  }

  predicate Distinct(s: seq<nat>) {
    forall i, j :: 0 <= i < j < |s| ==> s[i] != s[j]
  }

  function Elements(s: seq<nat>): set<nat> {
    set c | c in s
  }

  lemma {:induction false} DistinctSize(s: seq<nat>)
    requires Distinct(s)
    ensures |Elements(s)| == |s|
  {
    if |s| > 0 {
      var t := s[..|s| - 1];
      DistinctSize(t);
      assert Elements(s) == Elements(t) + {s[|s| - 1]} by {
        assert s == t + [s[|s| - 1]];
      }
    }
  }

  lemma ChainIsDistinct(g: Geometry, d: Disk, ch: seq<nat>)
    requires IsChain(g, d, ch)
    ensures Distinct(ch) && |ch| <= g.clusterCount
  {
    forall i, j | 0 <= i < j < |ch| ensures ch[i] != ch[j] {
      ChainHasNoRepeats(g, d, ch, i, j);
    }
    DistinctSize(ch);
    SubsetSize(Elements(ch), Range(2, g.clusterCount + 2));
  }

  function At(ch: seq<nat>, k: nat): Option<nat> {
    if k < |ch| then Some(ch[k]) else None
  }

  /** The plain walk of a chain finds all of it. */
  lemma {:induction false} WalkFindsChain(g: Geometry, d: Disk, ch: seq<nat>, k: nat)
    requires IsChain(g, d, ch) && k <= |ch|
    ensures Walk(g, d, At(ch, k), ch[..k], None) == Ok(ch)
    decreases |ch| - k
  {
    if k == |ch| {
      assert ch[..k] == ch;
    } else {
      ChainIsDistinct(g, d, ch);
      WalkFindsChain(g, d, ch, k + 1);
      assert ch[..k] + [ch[k]] == ch[..k + 1];
      if k + 1 < |ch| {
        assert Next(g, d, ch[k]) == Link(ch[k + 1]);
      }
    }
  }

  /** What the plain walk comes to the end of is a chain. */
  lemma {:induction false} WalkIsChain(g: Geometry, d: Disk, at: Option<nat>, done: seq<nat>)
    requires IsPath(g, d, done) && (done == [] ==> at.Some?)
    requires done != [] ==> Next(g, d, done[|done| - 1]) == (if at.Some? then Link(at.value) else End)
    requires Walk(g, d, at, done, None).Ok?
    ensures IsChain(g, d, Walk(g, d, at, done, None).value)
    ensures done <= Walk(g, d, at, done, None).value
    ensures done == [] ==> Walk(g, d, at, done, None).value[0] == at.value
    decreases g.clusterCount - |done|
  {
    if at.Some? {
      var next := Next(g, d, at.value);
      var more := done + [at.value];
      assert Walk(g, d, at, done, None) == Walk(g, d, if next.Link? then Some(next.next) else None, more, None);
      WalkIsChain(g, d, if next.Link? then Some(next.next) else None, more);
    }
  }

  predicate SameEntries(g: Geometry, d: Disk, d': Disk, ch: seq<nat>) {
    forall i :: 0 <= i < |ch| ==> FatEntry(g, d, ch[i]) == FatEntry(g, d', ch[i])
  }

  /** A walk along a chain depends on the entries of its clusters only, and stays on it. */
  lemma {:induction false} WalkStaysOnChain(g: Geometry, d: Disk, d': Disk, ch: seq<nat>, k: nat, want: Option<nat>)
    requires IsChain(g, d, ch) && k <= |ch| && SameEntries(g, d, d', ch)
    ensures Walk(g, d, At(ch, k), ch[..k], want) == Walk(g, d', At(ch, k), ch[..k], want)
    ensures Walk(g, d, At(ch, k), ch[..k], want).Ok?
    ensures Walk(g, d, At(ch, k), ch[..k], want).value <= ch
    decreases |ch| - k
  {
    if k < |ch| && !Covered(g, k, want) {
      ChainIsDistinct(g, d, ch);
      WalkStaysOnChain(g, d, d', ch, k + 1, want);
      assert ch[..k] + [ch[k]] == ch[..k + 1];
      assert k + 1 < |ch| ==> Next(g, d, ch[k]) == Link(ch[k + 1]);
    }
  }

  /** A walk that wants more than all but the last cluster of a chain hold goes over all of it. */
  lemma {:induction false} WalkCoversChain(g: Geometry, d: Disk, ch: seq<nat>, k: nat, want: nat)
    requires IsChain(g, d, ch) && k <= |ch|
    requires forall n :: 0 <= n < |ch| ==> !Covered(g, n, Some(want))
    ensures Walk(g, d, At(ch, k), ch[..k], Some(want)) == Ok(ch)
    decreases |ch| - k
  {
    if k == |ch| {
      assert ch[..k] == ch;
    } else {
      ChainIsDistinct(g, d, ch);
      WalkCoversChain(g, d, ch, k + 1, want);
      assert ch[..k] + [ch[k]] == ch[..k + 1];
      assert k + 1 < |ch| ==> Next(g, d, ch[k]) == Link(ch[k + 1]);
    }
  }

  /** The sectors of a cluster, and of a list of clusters. */
  function ClusterSectors(g: Geometry, c: nat): (s: seq<nat>)
    requires 2 <= c
    ensures |s| == g.sectorsPerCluster
  {
    seq(g.sectorsPerCluster, i requires 0 <= i < g.sectorsPerCluster => g.SectorOf(c, i))
  }

  predicate AllFrom2(ch: seq<nat>) {
    forall i :: 0 <= i < |ch| ==> 2 <= ch[i]
  }

  function Sectors(g: Geometry, ch: seq<nat>): (s: seq<nat>)
    requires AllFrom2(ch)
    ensures |s| == |ch| * g.sectorsPerCluster
  {
    if ch == [] then []
    else
      var init, last := ch[..|ch| - 1], ch[|ch| - 1];
      assert |ch| * g.sectorsPerCluster == |init| * g.sectorsPerCluster + g.sectorsPerCluster;
      Sectors(g, init) + ClusterSectors(g, last)
  }

  function Blocks(d: Disk, sectors: seq<nat>): (b: seq<Block>)
    ensures |b| == |sectors|
  {
    seq(|sectors|, i requires 0 <= i < |sectors| => ReadBlock(d, sectors[i]))
  }

  lemma {:induction false} SectorsAppend(g: Geometry, a: seq<nat>, b: seq<nat>)
    requires AllFrom2(a) && AllFrom2(b)
    ensures AllFrom2(a + b) && Sectors(g, a + b) == Sectors(g, a) + Sectors(g, b)
  {
    if b == [] {
      assert a + b == a;
    } else {
      var init := b[..|b| - 1];
      SectorsAppend(g, a, init);
      assert (a + b)[..|a + b| - 1] == a + init;
    }
  }

  /** Every sector of a list of clusters is in one of them. */
  lemma {:induction false} SectorInCluster(g: Geometry, ch: seq<nat>, k: nat) returns (i: nat)
    requires AllFrom2(ch) && k < |Sectors(g, ch)|
    ensures i < |ch| && g.InCluster(Sectors(g, ch)[k], ch[i])
  {
    var init := ch[..|ch| - 1];
    if k < |Sectors(g, init)| {
      i := SectorInCluster(g, init, k);
    } else {
      i := |ch| - 1;
    }
  }

  /** The sectors of different clusters are all different. */
  lemma {:induction false} SectorsDistinct(g: Geometry, ch: seq<nat>, j: nat, k: nat)
    requires AllFrom2(ch) && Distinct(ch) && j < k < |Sectors(g, ch)|
    ensures Sectors(g, ch)[j] != Sectors(g, ch)[k]
  {
    var init := ch[..|ch| - 1];
    if k < |Sectors(g, init)| {
      SectorsDistinct(g, init, j, k);
    } else if j < |Sectors(g, init)| {
      var i := SectorInCluster(g, init, j);
      if Sectors(g, ch)[j] == Sectors(g, ch)[k] {
        ClustersApart(g, init[i], ch[|ch| - 1], Sectors(g, ch)[j]);
      }
    }
  }

  /** The bytes of a list of blocks. */
  function Flatten(blocks: seq<Block>): (s: seq<byte>)
    ensures |s| == |blocks| * BLOCK_SIZE
  {
    if blocks == [] then [] else Flatten(blocks[..|blocks| - 1]) + blocks[|blocks| - 1]
  }

  /** Whole blocks of bytes, cut up. */
  function Chop(bytes: seq<byte>): (blocks: seq<Block>)
    requires |bytes| % BLOCK_SIZE == 0
    ensures |blocks| == |bytes| / BLOCK_SIZE
  {
    seq(|bytes| / BLOCK_SIZE, i requires 0 <= i < |bytes| / BLOCK_SIZE => bytes[i * BLOCK_SIZE..(i + 1) * BLOCK_SIZE])
  }

  lemma {:induction false} FlattenChop(bytes: seq<byte>)
    requires |bytes| % BLOCK_SIZE == 0
    ensures Flatten(Chop(bytes)) == bytes
  {
    if |bytes| > 0 {
      var init := bytes[..|bytes| - BLOCK_SIZE];
      FlattenChop(init);
      var n := |Chop(init)|;
      forall i | 0 <= i < n ensures Chop(bytes)[i] == Chop(init)[i] {
        assert bytes[i * BLOCK_SIZE..(i + 1) * BLOCK_SIZE] == init[i * BLOCK_SIZE..(i + 1) * BLOCK_SIZE];
      }
      assert Chop(bytes)[..n] == Chop(init);
      assert bytes == init + bytes[|bytes| - BLOCK_SIZE..];
    }
  }

  lemma ClusterBytes(g: Geometry, n: nat)
    ensures n * g.ClusterSize() == n * g.sectorsPerCluster * BLOCK_SIZE
  {
  }

  /** What reading `size` bytes of the chain at `first` gives. */
  function FileBytes(g: Geometry, d: Disk, first: nat, size: nat): Result<seq<byte>> {
    if size == 0 then Ok([])
    else
      var walk := Walk(g, d, Some(first), [], Some(size));
      if walk.Err? then Err(walk.error)
      else if !Covered(g, |walk.value|, Some(size)) then Err(Truncated)
      else
        WalkedFrom2(g, d, Some(first), [], Some(size));
        ClusterBytes(g, |walk.value|);
        Ok(Flatten(Blocks(d, Sectors(g, walk.value)))[..size])
  }

  /** A walk goes over data clusters. */
  lemma {:induction false} WalkedFrom2(g: Geometry, d: Disk, at: Option<nat>, done: seq<nat>, want: Option<nat>)
    requires AllFrom2(done)
    requires Walk(g, d, at, done, want).Ok?
    ensures AllFrom2(Walk(g, d, at, done, want).value)
    decreases g.clusterCount - |done|
  {
    if at.Some? && !Covered(g, |done|, want) {
      var next := Next(g, d, at.value);
      WalkedFrom2(g, d, if next.Link? then Some(next.next) else None, done + [at.value], want);
    }
  }
}
