/** Runs of consecutive clusters, read and written in one go. */
module FatRuns {
  import opened Bytes
  import opened FatLayout
  import opened FatChains
  import opened FatNames
  import opened FatTree
  import opened FatWrites
  import opened FatTables

  /** What reading the chain at `first` gives: `limit` bytes of it, or all of it. */
  function ChainBytes(g: Geometry, d: Disk, first: nat, limit: Option<nat>): Result<seq<byte>> {
    if limit.Some? then FileBytes(g, d, first, limit.value)
    else
      var walk := Walk(g, d, Some(first), [], None);
      if walk.Err? then Err(walk.error)
      else
        WalkedFrom2(g, d, Some(first), [], None);
        Ok(Flatten(Blocks(d, Sectors(g, walk.value))))
  }

  /** `n` consecutive clusters from `start` on. */
  function Run(start: nat, n: nat): (r: seq<nat>)
    ensures |r| == n && forall i :: 0 <= i < n ==> r[i] == start + i
  {
    if n == 0 then [] else Run(start, n - 1) + [start + n - 1]
  }

  lemma RunMore(start: nat, n: nat)
    requires n > 0
    ensures Run(start, n) == Run(start, n - 1) + [start + n - 1]
  {
  }

  lemma NothingCovers(g: Geometry, d: Disk)
    ensures Flatten(Blocks(d, Sectors(g, []))) == []
  {
  }

  /** One step of the plain walk. */
  lemma WalkStep(g: Geometry, d: Disk, c: nat, done: seq<nat>, want: Option<nat>)
    requires !Covered(g, |done|, want)
    ensures !g.IsCluster(c) ==> Walk(g, d, Some(c), done, want) == Err(BadCluster(c))
    ensures g.IsCluster(c) && |done| >= g.clusterCount ==> Walk(g, d, Some(c), done, want) == Err(ChainLoop)
    ensures g.IsCluster(c) && |done| < g.clusterCount ==>
              Walk(g, d, Some(c), done, want) == match Next(g, d, c)
                                                 case End => Walk(g, d, None, done + [c], want)
                                                 case Bad => Err(BadCluster(c))
                                                 case Link(next) => Walk(g, d, Some(next), done + [c], want)
  {
  }

  lemma WalkStops(g: Geometry, d: Disk, at: Option<nat>, done: seq<nat>, want: Option<nat>)
    requires at.None? || Covered(g, |done|, want)
    ensures Walk(g, d, at, done, want) == Ok(done)
  {
  }

  lemma RunBytes(g: Geometry, n: nat, run: nat)
    ensures (n + run) * g.ClusterSize() == n * g.ClusterSize() + run * g.ClusterSize()
  {
  }

  /** The sectors of a run of clusters are consecutive. */
  lemma {:induction false} RunSectors(g: Geometry, start: nat, run: nat)
    requires 2 <= start
    ensures AllFrom2(Run(start, run))
            && Sectors(g, Run(start, run)) == RegionSectors(g.FirstSector(start), run * g.sectorsPerCluster)
  {
    if run > 0 {
      RunSectors(g, start, run - 1);
      var k := g.sectorsPerCluster;
      assert Run(start, run)[..run - 1] == Run(start, run - 1);
      assert run * k == (run - 1) * k + k;
      assert g.FirstSector(start + run - 1) == g.FirstSector(start) + (run - 1) * k by {
        Distribute(start - 2, run - 1, k);
      }
      assert Sectors(g, Run(start, run)) == Sectors(g, Run(start, run - 1)) + ClusterSectors(g, start + run - 1);
    }
  }

  lemma Distribute(a: nat, b: nat, k: nat)
    ensures (a + b) * k == a * k + b * k
  {
  }

  lemma {:induction false} FlattenAppend(a: seq<Block>, b: seq<Block>)
    ensures Flatten(a + b) == Flatten(a) + Flatten(b)
  {
    if b == [] {
      assert a + b == a;
    } else {
      FlattenAppend(a, b[..|b| - 1]);
      assert (a + b)[..|a + b| - 1] == a + b[..|b| - 1];
    }
  }

  lemma BlocksAppend(d: Disk, a: seq<nat>, b: seq<nat>)
    ensures Blocks(d, a + b) == Blocks(d, a) + Blocks(d, b)
  {
  }

  /** Reading a run in one go reads its clusters one by one. */
  lemma RunReads(g: Geometry, d: Disk, done: seq<nat>, start: nat, run: nat)
    requires AllFrom2(done) && AllFrom2(done + Run(start, run)) && run > 0
    ensures 2 <= start
    ensures Flatten(Blocks(d, Sectors(g, done + Run(start, run))))
         == Flatten(Blocks(d, Sectors(g, done)))
             + Flatten(Blocks(d, RegionSectors(g.FirstSector(start), run * g.sectorsPerCluster)))
    ensures |Flatten(Blocks(d, Sectors(g, done + Run(start, run))))| == |done + Run(start, run)| * g.ClusterSize()
  {
    hide Sectors, Flatten, Blocks;
    assert (done + Run(start, run))[|done|] == start;
    RunSectors(g, start, run);
    SectorsAppend(g, done, Run(start, run));
    BlocksAppend(d, Sectors(g, done), Sectors(g, Run(start, run)));
    FlattenAppend(Blocks(d, Sectors(g, done)), Blocks(d, Sectors(g, Run(start, run))));
    ClusterBytes(g, |done + Run(start, run)|);
  }

  /** The slots of a directory read as bytes. */
  function BytesSlots(bytes: seq<byte>): (slots: seq<Slot>)
    requires |bytes| % BLOCK_SIZE == 0
    ensures |slots| == |bytes| / 32
  {
    seq(|bytes| / 32, i requires 0 <= i < |bytes| / 32 => bytes[32 * i..32 * i + 32])
  }

  lemma {:induction false} FlattenSlots(blocks: seq<Block>)
    ensures BytesSlots(Flatten(blocks)) == Slots(blocks)
  {
    hide Slots, Flatten;
    forall k | 0 <= k < 16 * |blocks| ensures BytesSlots(Flatten(blocks))[k] == Slots(blocks)[k] {
      SlotsAt(blocks, k);
      FlattenAt(blocks, k);
    }
  }

  lemma {:induction false} FlattenAt(blocks: seq<Block>, k: nat)
    requires k < 16 * |blocks|
    ensures Flatten(blocks)[32 * k..32 * k + 32] == SlotIn(blocks[k / 16], k % 16)
  {
    var n := |blocks| - 1;
    if k < 16 * n {
      FlattenAt(blocks[..n], k);
      assert Flatten(blocks)[32 * k..32 * k + 32] == Flatten(blocks[..n])[32 * k..32 * k + 32];
    } else {
      assert Flatten(blocks)[32 * k..32 * k + 32] == blocks[n][32 * (k - 16 * n)..32 * (k - 16 * n) + 32];
    }
  }

  /* Writing. */

  /** `data` with zeros after it, up to `n` bytes. */
  function Pad(data: seq<byte>, n: nat): (r: seq<byte>)
    requires |data| <= n
    ensures |r| == n && r[..|data|] == data && forall i :: |data| <= i < n ==> r[i] == 0
  {
    data + Zeros(n - |data|)
  }

  /** `d` is `d0` with the first `n` of `blocks` written to theirs of `sectors`. */
  ghost predicate FilledTo(d0: Disk, d: Disk, sectors: seq<nat>, blocks: seq<Block>, n: nat)
    requires n <= |sectors| == |blocks|
  {
    && (forall k :: 0 <= k < n ==> ReadBlock(d, sectors[k]) == blocks[k])
    && (forall s: nat :: ReadBlock(d, s) == ReadBlock(d0, s) || s in sectors)
  }

  lemma FillNext(d0: Disk, d: Disk, sectors: seq<nat>, blocks: seq<Block>, n: nat)
    requires n < |sectors| == |blocks| && Distinct(sectors) && FilledTo(d0, d, sectors, blocks, n)
    ensures FilledTo(d0, d[sectors[n] := blocks[n]], sectors, blocks, n + 1)
  {
  }

  /** Filling clusters' sectors changes those clusters alone. */
  lemma FilledOnly(g: Geometry, d0: Disk, d: Disk, cs: seq<nat>, blocks: seq<Block>, n: nat)
    requires g.Sound() && AllFrom2(cs) && n <= |Sectors(g, cs)| == |blocks|
             && FilledTo(d0, d, Sectors(g, cs), blocks, n)
    ensures Only(g, {}, Elements(cs), d0, d) && forall s: nat :: g.InFats(s) ==> ReadBlock(d, s) == ReadBlock(d0, s)
  {
    hide Sectors, FatEntry, ReadBlock;
    forall s: nat | s in Sectors(g, cs) ensures !g.InFats(s) && InAny(g, s, Elements(cs)) {
      var k :| 0 <= k < |Sectors(g, cs)| && Sectors(g, cs)[k] == s;
      var i := SectorInCluster(g, cs, k);
      ClusterIsData(g, cs[i], s);
      assert cs[i] in Elements(cs);
    }
    Regions(g);
    forall c | g.IsCluster(c) ensures FatEntry(g, d0, c) == FatEntry(g, d, c) {
      EntryPlaces(g, c);
      EntryIn(g, d0, c);
      EntryIn(g, d, c);
    }
  }

  /** The sectors of a run within a list of clusters are consecutive. */
  lemma RunPlaces(g: Geometry, cs: seq<nat>, i: nat, run: nat)
    requires AllFrom2(cs) && i + run <= |cs| && 0 < run && cs[i..i + run] == Run(cs[i], run)
    ensures |Sectors(g, cs)| >= (i + run) * g.sectorsPerCluster == i * g.sectorsPerCluster + run * g.sectorsPerCluster
    ensures var at, n := i * g.sectorsPerCluster, run * g.sectorsPerCluster;
            Sectors(g, cs)[at..at + n] == RegionSectors(g.FirstSector(cs[i]), n)
  {
    hide Sectors, Run;
    var a, b, c := cs[..i], cs[i..i + run], cs[i + run..];
    assert cs == a + b + c;
    SectorsAppend(g, a, b);
    SectorsAppend(g, a + b, c);
    RunSectors(g, cs[i], run);
    Distribute(i, run, g.sectorsPerCluster);
  }

  lemma SectorsAreDistinct(g: Geometry, cs: seq<nat>)
    requires AllFrom2(cs) && Distinct(cs)
    ensures Distinct(Sectors(g, cs))
  {
    hide Sectors;
    forall j, k | 0 <= j < k < |Sectors(g, cs)| ensures Sectors(g, cs)[j] != Sectors(g, cs)[k] {
      SectorsDistinct(g, cs, j, k);
    }
  }

  /** A chain just long enough for the data written to it reads back as that data. */
  lemma WrittenReads(g: Geometry, d: Disk, ch: seq<nat>, data: seq<byte>)
    requires g.Mounted() && IsChain(g, d, ch) && AllFrom2(ch) && data != [] && |ch| * g.ClusterSize() % BLOCK_SIZE == 0
    requires (|ch| - 1) * g.ClusterSize() < |data| <= |ch| * g.ClusterSize()
    requires Blocks(d, Sectors(g, ch)) == Chop(Pad(data, |ch| * g.ClusterSize()))
    ensures FileBytes(g, d, ch[0], |data|) == Ok(data)
  {
    hide Sectors, Blocks, Flatten, Chop, Pad, Walk, IsChain;
    forall n | 0 <= n < |ch| ensures !Covered(g, n, Some(|data|)) {
      ProductsGrow(n, |ch| - 1, g.ClusterSize());
    }
    ChainStarts(g, d, ch);
    WalkCoversChain(g, d, ch, 0, |data|);
    assert ch[..0] == [];
    FlattenChop(Pad(data, |ch| * g.ClusterSize()));
    assert Pad(data, |ch| * g.ClusterSize())[..|data|] == data;
  }

  lemma ChainStarts(g: Geometry, d: Disk, ch: seq<nat>)
    requires IsChain(g, d, ch)
    ensures |ch| > 0 && At(ch, 0) == Some(ch[0])
  {
  }

  lemma ProductsGrow(a: nat, b: nat, k: nat)
    requires a <= b
    ensures a * k <= b * k
  {
  }

  /** How many clusters `n` bytes take. */
  function ClustersFor(g: Geometry, n: nat): nat
    requires g.sectorsPerCluster > 0
  {
    (n + g.ClusterSize() - 1) / g.ClusterSize()
  }

  lemma ClustersHold(g: Geometry, n: nat)
    requires g.sectorsPerCluster > 0 && n > 0
    ensures var c := ClustersFor(g, n);
            1 <= c && (c - 1) * g.ClusterSize() < n <= c * g.ClusterSize() && c * g.ClusterSize() % BLOCK_SIZE == 0
  {
    CeilHolds(n, g.ClusterSize());
    ClusterBytes(g, ClustersFor(g, n));
  }

  lemma CeilHolds(n: nat, k: nat)
    requires n > 0 && k > 0
    ensures var c := (n + k - 1) / k; 1 <= c && (c - 1) * k < n <= c * k
  {
  }

  /** Data blocks stay when only FAT entries change. */
  lemma ContentsStay(g: Geometry, ch: seq<nat>, fs: set<nat>, d: Disk, d': Disk)
    requires g.Sound() && AllFrom2(ch) && Only(g, fs, {}, d, d')
    ensures Blocks(d, Sectors(g, ch)) == Blocks(d', Sectors(g, ch))
  {
    hide Sectors, FatEntry, ReadBlock;
    forall k | 0 <= k < |Sectors(g, ch)| ensures ReadBlock(d, Sectors(g, ch)[k]) == ReadBlock(d', Sectors(g, ch)[k]) {
      var s := Sectors(g, ch)[k];
      var i := SectorInCluster(g, ch, k);
      ClusterIsData(g, ch[i], s);
      Regions(g);
    }
    BlocksSame(d, d', Sectors(g, ch));
  }

  /** The chain of clusters `cs`, free in `d`, holds `data` and zeros after it in `d'`. */
  ghost predicate IsPut(g: Geometry, d: Disk, d': Disk, cs: seq<nat>, data: seq<byte>) {
    && Elements(cs) <= FreeSet(g, d) && FreeSet(g, d') == FreeSet(g, d) - Elements(cs)
    && Only(g, Elements(cs), Elements(cs), d, d') && IsChain(g, d', cs) && AllFrom2(cs)
    && |data| <= |cs| * g.ClusterSize() && |cs| * g.ClusterSize() % BLOCK_SIZE == 0
    && Blocks(d', Sectors(g, cs)) == Chop(Pad(data, |cs| * g.ClusterSize()))
  }

  function BytesOf(g: Geometry, clusters: nat): nat { clusters * g.ClusterSize() }

  /** ... all zeros. */
  ghost predicate IsZeroed(g: Geometry, d: Disk, d': Disk, cs: seq<nat>) {
    IsPut(g, d, d', cs, Zeros(BytesOf(g, |cs|)))
  }

  /** Data written to free clusters, which are then linked. */
  lemma PutHolds(g: Geometry, d: Disk, d1: Disk, d2: Disk, cs: seq<nat>, data: seq<byte>)
    requires g.Sound() && AllFrom2(cs) && |cs| * g.ClusterSize() % BLOCK_SIZE == 0 && |data| <= |cs| * g.ClusterSize()
    requires Only(g, {}, Elements(cs), d, d1) && Blocks(d1, Sectors(g, cs)) == Chop(Pad(data, |cs| * g.ClusterSize()))
    requires Only(g, Elements(cs), {}, d1, d2) && IsChain(g, d2, cs)
    requires Elements(cs) <= FreeSet(g, d) && FreeSet(g, d2) == FreeSet(g, d1) - Elements(cs)
    ensures IsPut(g, d, d2, cs, data)
  {
    hide Sectors, FatEntry, ReadBlock, Chop, Pad, Only, FreeSet, Blocks;
    ContentsStay(g, cs, Elements(cs), d1, d2);
    OnlyTrans(g, {}, Elements(cs), d, d1, Elements(cs), {}, d2);
    OnlyMore(g, {} + Elements(cs), Elements(cs) + {}, Elements(cs), Elements(cs), d, d2);
    FreeSetSame(g, d, d1, Elements(cs));
  }

  /** The chain of clusters `ch`, free in `d`, holds the file `data` in `d'`. */
  ghost predicate IsNewChain(g: Geometry, d: Disk, d': Disk, first: nat, ch: seq<nat>, data: seq<byte>) {
    && Elements(ch) <= FreeSet(g, d) && FreeSet(g, d') == FreeSet(g, d) - Elements(ch)
    && Only(g, Elements(ch), Elements(ch), d, d')
    && FileBytes(g, d', first, |data|) == Ok(data)
    && (if data == [] then ch == [] && first == 0 else IsChain(g, d', ch) && ch[0] == first)
  }

  lemma NoChain(g: Geometry, d: Disk)
    ensures IsNewChain(g, d, d, 0, [], [])
  {
  }

  lemma NewChainHolds(g: Geometry, d: Disk, d': Disk, ch: seq<nat>, data: seq<byte>)
    requires g.Sound() && data != [] && |ch| == ClustersFor(g, |data|) && IsPut(g, d, d', ch, data)
    ensures ch != [] && IsNewChain(g, d, d', ch[0], ch, data)
  {
    hide Sectors, FatEntry, Chop, Pad, FileBytes, Only, FreeSet, Blocks;
    ClustersHold(g, |data|);
    WrittenReads(g, d', ch, data);
  }

  lemma ClustersFrom2(g: Geometry, cs: seq<nat>)
    requires AllClusters(g, cs)
    ensures AllFrom2(cs)
  {
  }

  /** Clusters filled with zeros hold blocks of zeros. */
  lemma PutZeros(g: Geometry, d: Disk, d': Disk, cs: seq<nat>)
    requires IsZeroed(g, d, d', cs)
    ensures forall i :: 0 <= i < |Sectors(g, cs)| ==> ReadBlock(d', Sectors(g, cs)[i]) == ZERO_BLOCK
  {
    hide Sectors, FreeSet, Only, IsChain, ReadBlock;
    var n := |cs| * g.ClusterSize();
    var blocks := Chop(Pad(Zeros(n), n));
    forall i | 0 <= i < |Sectors(g, cs)| ensures ReadBlock(d', Sectors(g, cs)[i]) == ZERO_BLOCK {
      assert Blocks(d', Sectors(g, cs))[i] == blocks[i];
      assert blocks[i] == ZERO_BLOCK;
    }
  }
}
