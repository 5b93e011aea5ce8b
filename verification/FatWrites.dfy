/** What writes leave alone: everything a well-formed volume's files and directories are read from,
    as long as only free clusters and the spare parts of the volume are written. */
module FatWrites {
  import opened Bytes
  import opened FatLayout
  import opened FatChains
  import opened FatNames
  import opened FatDirectory
  import opened FatDirectoryChanges
  import opened FatTree

  predicate InAny(g: Geometry, sector: nat, clusters: set<nat>) {
    exists c :: c in clusters && g.InCluster(sector, c)
  }

  /** `d'` differs from `d` at most in the FAT entries of the clusters `fs`, the contents of the
      clusters `ds`, the spare FAT copies and the FSInfo sector. */
  ghost predicate Only(g: Geometry, fs: set<nat>, ds: set<nat>, d: Disk, d': Disk) {
    && (forall c :: g.IsCluster(c) && c !in fs ==> FatEntry(g, d, c) == FatEntry(g, d', c))
    && (forall s: nat :: !g.InFats(s) && !InAny(g, s, ds) && g.fsinfo != Some(s) ==>
          ReadBlock(d, s) == ReadBlock(d', s))
  }

  lemma OnlyTrans(g: Geometry, fs: set<nat>, ds: set<nat>, d: Disk, d': Disk, fs': set<nat>, ds': set<nat>, d'': Disk)
    requires Only(g, fs, ds, d, d') && Only(g, fs', ds', d', d'')
    ensures Only(g, fs + fs', ds + ds', d, d'')
  {
    forall s: nat | !g.InFats(s) && !InAny(g, s, ds + ds') && g.fsinfo != Some(s)
      ensures ReadBlock(d, s) == ReadBlock(d'', s)
    {
      assert !InAny(g, s, ds) && !InAny(g, s, ds');
    }
  }

  ghost predicate NoneOwned(cat: Catalog, cs: set<nat>) {
    forall c :: c in cs ==> !Owned(cat, c)
  }

  ghost predicate SameBlocks(d: Disk, d': Disk, sectors: seq<nat>) {
    forall i :: 0 <= i < |sectors| ==> ReadBlock(d, sectors[i]) == ReadBlock(d', sectors[i])
  }

  lemma BlocksSame(d: Disk, d': Disk, sectors: seq<nat>)
    requires SameBlocks(d, d', sectors)
    ensures Blocks(d, sectors) == Blocks(d', sectors)
  {
  }

  /** The links of every chain in use are the same. */
  ghost predicate SameLinks(v: Volume, cat: Catalog, d: Disk, d': Disk) {
    forall h :: h in cat.chains ==> SameEntries(v.g, d, d', cat.chains[h])
  }

  ghost predicate SameContents(v: Volume, cat: Catalog, h: nat, d: Disk, d': Disk)
    requires h in cat.chains
  {
    AllFrom2(cat.chains[h]) && SameBlocks(d, d', Sectors(v.g, cat.chains[h]))
  }

  ghost predicate SameRoot(v: Volume, d: Disk, d': Disk) {
    v.g.root.Fixed? ==> SameBlocks(d, d', RegionSectors(v.g.root.start, v.g.root.sectors))
  }

  /** All chains in use hold the same, and so does a fixed root directory. */
  ghost predicate Mirrors(v: Volume, cat: Catalog, d: Disk, d': Disk) {
    && ReadBlock(d, 0) == ReadBlock(d', 0)
    && SameLinks(v, cat, d, d')
    && (forall h :: h in cat.chains ==> SameContents(v, cat, h, d, d'))
    && SameRoot(v, d, d')
  }

  lemma OnlyKeepsLinks(v: Volume, cat: Catalog, fs: set<nat>, ds: set<nat>, d: Disk, d': Disk, h: nat)
    requires WellLaid(v, d, cat) && Only(v.g, fs, ds, d, d') && NoneOwned(cat, fs) && h in cat.chains
    ensures SameEntries(v.g, d, d', cat.chains[h])
  {
    hide FatEntry;
    var ch := cat.chains[h];
    ChainFrom2(v, d, cat, h);
    forall i | 0 <= i < |ch| ensures FatEntry(v.g, d, ch[i]) == FatEntry(v.g, d', ch[i]) {
      assert Owned(cat, ch[i]);
      assert v.g.IsCluster(ch[i]) && ch[i] !in fs;
    }
  }

  lemma OnlyKeepsContents(v: Volume, cat: Catalog, fs: set<nat>, ds: set<nat>, d: Disk, d': Disk, h: nat)
    requires WellLaid(v, d, cat) && Only(v.g, fs, ds, d, d') && NoneOwned(cat, ds) && h in cat.chains
    ensures SameContents(v, cat, h, d, d')
  {
    hide FatEntry, Sectors, ReadBlock;
    var ch := cat.chains[h];
    ChainFrom2(v, d, cat, h);
    forall k | 0 <= k < |Sectors(v.g, ch)|
      ensures ReadBlock(d, Sectors(v.g, ch)[k]) == ReadBlock(d', Sectors(v.g, ch)[k])
    {
      var s := Sectors(v.g, ch)[k];
      var i := SectorInCluster(v.g, ch, k);
      assert Owned(cat, ch[i]);
      ClusterIsData(v.g, ch[i], s);
      NotInAny(v, cat, ds, ch[i], s);
    }
  }

  lemma NotInAny(v: Volume, cat: Catalog, ds: set<nat>, c: nat, s: nat)
    requires v.g.InCluster(s, c) && Owned(cat, c) && NoneOwned(cat, ds)
    ensures !InAny(v.g, s, ds)
  {
    if InAny(v.g, s, ds) {
      var c' :| c' in ds && v.g.InCluster(s, c');
      ClustersApart(v.g, c, c', s);
    }
  }

  lemma OnlyKeepsRoot(v: Volume, fs: set<nat>, ds: set<nat>, d: Disk, d': Disk)
    requires v.g.Sound() && Only(v.g, fs, ds, d, d')
    ensures SameRoot(v, d, d') && ReadBlock(d, 0) == ReadBlock(d', 0)
  {
    hide FatEntry, ReadBlock;
    Regions(v.g);
    forall s: nat | s < v.g.dataStart && !v.g.InFats(s) && v.g.fsinfo != Some(s)
      ensures ReadBlock(d, s) == ReadBlock(d', s)
    {
      if InAny(v.g, s, ds) {
        var c :| c in ds && v.g.InCluster(s, c);
        ClusterIsData(v.g, c, s);
      }
    }
  }

  /** Writes to clusters not in use, and to spare parts, leave everything in use as it was. */
  lemma OnlyMirrors(v: Volume, cat: Catalog, fs: set<nat>, ds: set<nat>, d: Disk, d': Disk)
    requires WellLaid(v, d, cat) && Only(v.g, fs, ds, d, d') && NoneOwned(cat, fs) && NoneOwned(cat, ds)
    ensures Mirrors(v, cat, d, d')
  {
    hide Only, SameEntries, SameContents, NoneOwned;
    OnlyKeepsRoot(v, fs, ds, d, d');
    forall h | h in cat.chains ensures SameEntries(v.g, d, d', cat.chains[h]) && SameContents(v, cat, h, d, d') {
      OnlyKeepsLinks(v, cat, fs, ds, d, d', h);
      OnlyKeepsContents(v, cat, fs, ds, d, d', h);
    }
  }

  lemma SameLinksLaid(v: Volume, cat: Catalog, d: Disk, d': Disk)
    requires WellLaid(v, d, cat) && SameLinks(v, cat, d, d')
    ensures WellLaid(v, d', cat)
  {
    hide FatEntry;
    forall h | h in cat.chains ensures IsChain(v.g, d', cat.chains[h]) {
      var ch := cat.chains[h];
      assert IsChain(v.g, d, ch) && SameEntries(v.g, d, d', ch);
    }
  }

  lemma MirrorsDir(v: Volume, cat: Catalog, d: Disk, d': Disk, dir: Dir)
    requires Mirrors(v, cat, d, d') && WellLaid(v, d, cat) && dir in cat.dirs
    ensures DirBlocks(v, d, cat, dir) == DirBlocks(v, d', cat, dir)
  {
    hide SameEntries, Sectors, RegionSectors;
    var home := HomeOf(v, dir);
    if home.Some? {
      assert SameContents(v, cat, home.value, d, d');
    }
    BlocksSame(d, d', DirSectors(v, cat, dir));
  }

  lemma WellFormedIsLaid(v: Volume, d: Disk, cat: Catalog)
    requires WellFormed(v, d, cat)
    ensures WellLaid(v, d, cat)
  {
  }

  /** A volume that mirrors a well-formed one is well formed in the same way. */
  lemma MirrorsWellFormed(v: Volume, cat: Catalog, d: Disk, d': Disk)
    requires Mirrors(v, cat, d, d') && WellFormed(v, d, cat)
    ensures WellFormed(v, d', cat)
  {
    hide WellFormed, DirBlocks, EntriesIn, SameLinks, SameContents, SameRoot;
    WellFormedIsLaid(v, d, cat);
    SameLinksLaid(v, cat, d, d');
    forall dir | dir in cat.dirs
      ensures DirBlocks(v, d, cat, dir) == DirBlocks(v, d', cat, dir)
              && DirEntries(v, d, cat, dir) == DirEntries(v, d', cat, dir)
    {
      MirrorsDir(v, cat, d, d', dir);
    }
    SameDirsWellFormed(v, cat, d, d');
  }

  lemma SameDirsWellFormed(v: Volume, cat: Catalog, d: Disk, d': Disk)
    requires WellFormed(v, d, cat) && WellLaid(v, d', cat)
    requires forall dir :: dir in cat.dirs ==> DirBlocks(v, d, cat, dir) == DirBlocks(v, d', cat, dir)
    requires forall dir :: dir in cat.dirs ==> DirEntries(v, d, cat, dir) == DirEntries(v, d', cat, dir)
    ensures WellFormed(v, d', cat)
  {
    hide WellLaid, DirBlocks, DirEntries, Tidy, PointsWell;
    assert EntriesPointWell(v, d', cat) by {
      forall dir, i | dir in cat.dirs && 0 <= i < |DirEntries(v, d', cat, dir)|
        ensures PointsWell(v, cat, DirEntries(v, d', cat, dir)[i].entry)
      {
        assert PointsWell(v, cat, DirEntries(v, d, cat, dir)[i].entry);
      }
    }
    assert EntriesApart(v, d', cat) by {
      forall dir, i, dir', i' |
        && dir in cat.dirs && 0 <= i < |DirEntries(v, d', cat, dir)|
        && dir' in cat.dirs && 0 <= i' < |DirEntries(v, d', cat, dir')|
        && DirEntries(v, d', cat, dir)[i].entry.first == DirEntries(v, d', cat, dir')[i'].entry.first != 0
        ensures dir == dir' && i == i'
      {
        assert DirEntries(v, d, cat, dir)[i].entry.first == DirEntries(v, d, cat, dir')[i'].entry.first;
      }
    }
  }

  /* Reading. */

  lemma PrefixSame(v: Volume, ch: seq<nat>, part: seq<nat>, d: Disk, d': Disk)
    requires AllFrom2(ch) && part <= ch && SameBlocks(d, d', Sectors(v.g, ch))
    ensures Blocks(d, Sectors(v.g, part)) == Blocks(d', Sectors(v.g, part))
  {
    hide Sectors, Blocks;
    var rest := ch[|part|..];
    assert ch == part + rest;
    SectorsAppend(v.g, part, rest);
    forall i | 0 <= i < |Sectors(v.g, part)|
      ensures ReadBlock(d, Sectors(v.g, part)[i]) == ReadBlock(d', Sectors(v.g, part)[i])
    {
      assert Sectors(v.g, part)[i] == Sectors(v.g, ch)[i];
    }
    BlocksSame(d, d', Sectors(v.g, part));
  }

  /** The bytes of a file depend on its chain alone. */
  lemma FileSame(v: Volume, cat: Catalog, d: Disk, d': Disk, h: nat, size: nat)
    requires WellLaid(v, d, cat) && h in cat.chains
    requires SameEntries(v.g, d, d', cat.chains[h]) && SameContents(v, cat, h, d, d')
    ensures FileBytes(v.g, d, h, size) == FileBytes(v.g, d', h, size)
  {
    hide Sectors, Blocks, Walk, SameEntries, Covered, Flatten;
    ChainFrom2(v, d, cat, h);
    var ch := cat.chains[h];
    WalkStaysOnChain(v.g, d, d', ch, 0, Some(size));
    assert ch[..0] == [];
    PrefixSame(v, ch, Walk(v.g, d, Some(h), [], Some(size)).value, d, d');
  }

  lemma EmptySame(v: Volume, d: Disk, d': Disk, size: nat)
    ensures FileBytes(v.g, d, 0, size) == FileBytes(v.g, d', 0, size)
  {
    hide Sectors, Blocks, Flatten, FatEntry;
  }
}
