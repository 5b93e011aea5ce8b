/** Changing one directory of a well-formed volume: what it takes for the volume to stay well formed,
    and which paths read differently. */
module FatRewrites {
  import opened Bytes
  import opened FatLayout
  import opened FatChains
  import opened FatNames
  import opened FatDirectory
  import opened FatDirectoryChanges
  import opened FatTree
  import opened FatWrites
  import opened FatReads

  /** `d'` holds `blocks` in `sectors`, and elsewhere what `d` does. */
  ghost predicate Wrote(d: Disk, d': Disk, sectors: seq<nat>, blocks: seq<Block>) {
    && |sectors| == |blocks|
    && (forall i :: 0 <= i < |sectors| ==> ReadBlock(d', sectors[i]) == blocks[i])
    && (forall s: nat :: s !in sectors ==> ReadBlock(d, s) == ReadBlock(d', s))
  }

  /** Nothing but directory `dir` changed. */
  ghost predicate ChangedIn(v: Volume, cat: Catalog, dir: Dir, d: Disk, d': Disk) {
    && ReadBlock(d, 0) == ReadBlock(d', 0)
    && (forall c :: v.g.IsCluster(c) ==> FatEntry(v.g, d, c) == FatEntry(v.g, d', c))
    && (forall h :: h in cat.chains && HomeOf(v, dir) != Some(h) ==> SameContents(v, cat, h, d, d'))
    && (HomeOf(v, dir).Some? ==> SameRoot(v, d, d'))
  }

  lemma DirSectorIsData(v: Volume, d: Disk, cat: Catalog, dir: Dir, k: nat)
    requires WellLaid(v, d, cat) && dir in cat.dirs && k < |DirSectors(v, cat, dir)|
    ensures var s := DirSectors(v, cat, dir)[k];
            && s != 0 && !v.g.InFats(s) && v.g.fatStart <= s
            && (HomeOf(v, dir).Some? ==> v.g.dataStart <= s)
            && (HomeOf(v, dir).None? ==> s < v.g.dataStart)
  {
    hide Sectors, ChainsEnd, ChainsApart, IsChain;
    var home := HomeOf(v, dir);
    if home.Some? {
      ChainFrom2(v, d, cat, home.value);
      ChainSectorIsData(v, cat.chains[home.value], k);
    } else {
      RootSectorIsData(v, k);
    }
  }

  lemma ChainSectorIsData(v: Volume, ch: seq<nat>, k: nat)
    requires v.g.Mounted() && AllFrom2(ch) && k < |Sectors(v.g, ch)|
    ensures var s := Sectors(v.g, ch)[k]; s != 0 && !v.g.InFats(s) && v.g.fatStart < v.g.dataStart <= s
  {
    hide Sectors;
    Regions(v.g);
    var i := SectorInCluster(v.g, ch, k);
    ClusterIsData(v.g, ch[i], Sectors(v.g, ch)[k]);
  }

  lemma RootSectorIsData(v: Volume, k: nat)
    requires v.g.Mounted() && v.g.root.Fixed? && k < v.g.root.sectors
    ensures var s := RegionSectors(v.g.root.start, v.g.root.sectors)[k];
            s != 0 && !v.g.InFats(s) && v.g.fatStart <= s < v.g.dataStart
  {
    Regions(v.g);
  }

  /** The sectors of a directory belong to no chain but its own. */
  lemma DirSectorElsewhere(v: Volume, d: Disk, cat: Catalog, dir: Dir, k: nat, h: nat, j: nat)
    requires WellLaid(v, d, cat) && dir in cat.dirs && h in cat.chains && HomeOf(v, dir) != Some(h)
             && AllFrom2(cat.chains[h])
    requires k < |DirSectors(v, cat, dir)| && j < |Sectors(v.g, cat.chains[h])|
    ensures DirSectors(v, cat, dir)[k] != Sectors(v.g, cat.chains[h])[j]
  {
    hide Sectors, ChainsEnd, ChainsApart;
    var home := HomeOf(v, dir);
    ChainSectorIsData(v, cat.chains[h], j);
    if home.None? {
      DirSectorIsData(v, d, cat, dir, k);
    } else {
      ChainFrom2(v, d, cat, home.value);
      ChainSectorsApart(v, cat, home.value, h, k, j);
    }
  }

  lemma ChainSectorsApart(v: Volume, cat: Catalog, h: nat, h': nat, k: nat, j: nat)
    requires ChainsApart(cat) && h in cat.chains && h' in cat.chains && h != h'
    requires AllFrom2(cat.chains[h]) && AllFrom2(cat.chains[h'])
    requires k < |Sectors(v.g, cat.chains[h])| && j < |Sectors(v.g, cat.chains[h'])|
    ensures Sectors(v.g, cat.chains[h])[k] != Sectors(v.g, cat.chains[h'])[j]
  {
    hide Sectors;
    var s := Sectors(v.g, cat.chains[h])[k];
    if s == Sectors(v.g, cat.chains[h'])[j] {
      var i := SectorInCluster(v.g, cat.chains[h], k);
      var i' := SectorInCluster(v.g, cat.chains[h'], j);
      assert cat.chains[h][i] in cat.chains[h] && cat.chains[h'][i'] in cat.chains[h'];
      ClustersApart(v.g, cat.chains[h][i], cat.chains[h'][i'], s);
    }
  }

  lemma FatUntouched(g: Geometry, d: Disk, d': Disk, c: nat)
    requires g.Sound() && g.IsCluster(c) && forall s: nat :: g.InFirstFat(s) ==> ReadBlock(d, s) == ReadBlock(d', s)
    ensures FatEntry(g, d, c) == FatEntry(g, d', c)
  {
    EntryPlaces(g, c);
  }

  /** Writing a directory's own sectors changes nothing else. */
  lemma WroteDir(v: Volume, d: Disk, d': Disk, cat: Catalog, dir: Dir, blocks: seq<Block>)
    requires WellLaid(v, d, cat) && dir in cat.dirs && Wrote(d, d', DirSectors(v, cat, dir), blocks)
    ensures ChangedIn(v, cat, dir, d, d') && DirBlocks(v, d', cat, dir) == blocks
  {
    hide FatEntry, Sectors, DirSectors, RegionSectors, ReadBlock;
    var sectors := DirSectors(v, cat, dir);
    Regions(v.g);
    forall k | 0 <= k < |sectors|
      ensures sectors[k] != 0 && !v.g.InFats(sectors[k]) && (HomeOf(v, dir).Some? ==> v.g.dataStart <= sectors[k])
    {
      DirSectorIsData(v, d, cat, dir, k);
    }
    forall c | v.g.IsCluster(c) ensures FatEntry(v.g, d, c) == FatEntry(v.g, d', c) {
      FatUntouched(v.g, d, d', c);
    }
    forall h | h in cat.chains && HomeOf(v, dir) != Some(h) ensures SameContents(v, cat, h, d, d') {
      WroteElsewhere(v, d, d', cat, dir, blocks, h);
    }
    if HomeOf(v, dir).Some? {
      RootElsewhere(v, d, d', sectors);
    }
  }

  lemma RootElsewhere(v: Volume, d: Disk, d': Disk, sectors: seq<nat>)
    requires v.g.Mounted() && forall s: nat :: s !in sectors ==> ReadBlock(d, s) == ReadBlock(d', s)
    requires forall k :: 0 <= k < |sectors| ==> v.g.dataStart <= sectors[k]
    ensures SameRoot(v, d, d')
  {
  }

  lemma WroteElsewhere(v: Volume, d: Disk, d': Disk, cat: Catalog, dir: Dir, blocks: seq<Block>, h: nat)
    requires WellLaid(v, d, cat) && dir in cat.dirs && Wrote(d, d', DirSectors(v, cat, dir), blocks)
    requires h in cat.chains && HomeOf(v, dir) != Some(h)
    ensures SameContents(v, cat, h, d, d')
  {
    hide Sectors, DirSectors, ReadBlock;
    ChainFrom2(v, d, cat, h);
    var theirs := Sectors(v.g, cat.chains[h]);
    forall j | 0 <= j < |theirs| ensures ReadBlock(d, theirs[j]) == ReadBlock(d', theirs[j]) {
      if theirs[j] in DirSectors(v, cat, dir) {
        var k :| 0 <= k < |DirSectors(v, cat, dir)| && DirSectors(v, cat, dir)[k] == theirs[j];
        DirSectorElsewhere(v, d, cat, dir, k, h, j);
      }
    }
  }

  lemma ChangedLaid(v: Volume, cat: Catalog, dir: Dir, d: Disk, d': Disk)
    requires WellLaid(v, d, cat) && ChangedIn(v, cat, dir, d, d')
    ensures WellLaid(v, d', cat) && SameLinks(v, cat, d, d')
  {
    hide FatEntry, SameContents, SameRoot;
    forall h | h in cat.chains ensures SameEntries(v.g, d, d', cat.chains[h]) {
      ChainFrom2(v, d, cat, h);
    }
    SameLinksLaid(v, cat, d, d');
  }

  lemma OtherDirs(v: Volume, cat: Catalog, dir: Dir, d: Disk, d': Disk, other: Dir)
    requires WellLaid(v, d, cat) && ChangedIn(v, cat, dir, d, d') && dir in cat.dirs && other in cat.dirs
             && other != dir
    ensures DirBlocks(v, d, cat, other) == DirBlocks(v, d', cat, other)
  {
    hide FatEntry, Sectors, RegionSectors;
    var home := HomeOf(v, other);
    assert home.Some? ==> home != HomeOf(v, dir);
    if home.Some? {
      assert SameContents(v, cat, home.value, d, d');
    }
    BlocksSame(d, d', DirSectors(v, cat, other));
  }

  lemma FilesElsewhere(v: Volume, cat: Catalog, dir: Dir, d: Disk, d': Disk)
    requires WellLaid(v, d, cat) && ChangedIn(v, cat, dir, d, d') && dir in cat.dirs
    ensures SameFiles(v, cat, d, d')
  {
    hide FatEntry, SameContents, SameEntries;
    ChangedLaid(v, cat, dir, d, d');
  }

  /* Staying well formed. */

  /** Where each entry of a changed directory comes from: an entry of it before, or none. */
  type Sources = seq<Option<nat>>

  ghost predicate IsSource(was: seq<Located>, now: seq<Located>, from: Sources) {
    && |from| == |now|
    && (forall j :: 0 <= j < |now| && from[j].Some? ==>
          && from[j].value < |was|
          && now[j].entry.first == was[from[j].value].entry.first && now[j].entry.kind == was[from[j].value].entry.kind)
    && (forall i, j :: 0 <= i < |now| && 0 <= j < |now| && from[i] == from[j] ==> i == j)
  }

  /** No entry points at `first`. */
  ghost predicate Unreferenced(v: Volume, d: Disk, cat: Catalog, first: nat) {
    first == 0 || forall dir, i :: dir in cat.dirs && 0 <= i < |DirEntries(v, d, cat, dir)| ==>
        DirEntries(v, d, cat, dir)[i].entry.first != first
  }

  /** The entries that come from none point at chains nothing pointed at. */
  ghost predicate NewPointWell(v: Volume, d: Disk, cat: Catalog, now: seq<Located>, from: Sources)
    requires |from| == |now|
  {
    forall j :: 0 <= j < |now| && from[j].None? ==>
        PointsWell(v, cat, now[j].entry) && Unreferenced(v, d, cat, now[j].entry.first)
  }

  /** A volume stays well formed when the entries of one directory come from those before, or point at
      chains nothing pointed at. */
  lemma ChangeKeepsWellFormed(v: Volume, cat: Catalog, dir: Dir, d: Disk, d': Disk, from: Sources)
    requires WellFormed(v, d, cat) && ChangedIn(v, cat, dir, d, d') && dir in cat.dirs
    requires Tidy(Slots(DirBlocks(v, d', cat, dir)))
    requires IsSource(DirEntries(v, d, cat, dir), DirEntries(v, d', cat, dir), from)
    requires NewPointWell(v, d, cat, DirEntries(v, d', cat, dir), from)
    ensures WellFormed(v, d', cat)
  {
    hide WellLaid, ChangedIn, DirBlocks, EntriesIn, Slots, Tidy, PointsWell, Unreferenced, IsSource, NewPointWell,
      EntriesPointWell, EntriesApart;
    WellFormedIsLaid(v, d, cat);
    ChangedLaid(v, cat, dir, d, d');
    forall other | other in cat.dirs && other != dir
      ensures DirBlocks(v, d, cat, other) == DirBlocks(v, d', cat, other)
              && DirEntries(v, d, cat, other) == DirEntries(v, d', cat, other)
    {
      OtherDirs(v, cat, dir, d, d', other);
    }
    ChangePointsWell(v, cat, dir, d, d', from);
    ChangeStaysApart(v, cat, dir, d, d', from);
  }

  ghost predicate OthersSame(v: Volume, cat: Catalog, dir: Dir, d: Disk, d': Disk) {
    forall other :: other in cat.dirs && other != dir ==> DirEntries(v, d, cat, other) == DirEntries(v, d', cat, other)
  }

  lemma ChangePointsWell(v: Volume, cat: Catalog, dir: Dir, d: Disk, d': Disk, from: Sources)
    requires EntriesPointWell(v, d, cat) && dir in cat.dirs && OthersSame(v, cat, dir, d, d')
    requires IsSource(DirEntries(v, d, cat, dir), DirEntries(v, d', cat, dir), from)
    requires NewPointWell(v, d, cat, DirEntries(v, d', cat, dir), from)
    ensures EntriesPointWell(v, d', cat)
  {
    hide DirEntries, Unreferenced;
    forall at, i | at in cat.dirs && 0 <= i < |DirEntries(v, d', cat, at)|
      ensures PointsWell(v, cat, DirEntries(v, d', cat, at)[i].entry)
    {
      if at != dir {
        assert PointsWell(v, cat, DirEntries(v, d, cat, at)[i].entry);
      } else if from[i].Some? {
        assert PointsWell(v, cat, DirEntries(v, d, cat, dir)[from[i].value].entry);
      }
    }
  }

  lemma ChangeStaysApart(v: Volume, cat: Catalog, dir: Dir, d: Disk, d': Disk, from: Sources)
    requires EntriesApart(v, d, cat) && dir in cat.dirs && OthersSame(v, cat, dir, d, d')
    requires IsSource(DirEntries(v, d, cat, dir), DirEntries(v, d', cat, dir), from)
    requires NewPointWell(v, d, cat, DirEntries(v, d', cat, dir), from)
    ensures EntriesApart(v, d', cat)
  {
    hide DirEntries, PointsWell;
    forall a, i, b, j |
      && a in cat.dirs && 0 <= i < |DirEntries(v, d', cat, a)|
      && b in cat.dirs && 0 <= j < |DirEntries(v, d', cat, b)|
      && DirEntries(v, d', cat, a)[i].entry.first == DirEntries(v, d', cat, b)[j].entry.first != 0
      ensures a == b && i == j
    {
      var i0 := if a == dir then from[i] else Some(i);
      var j0 := if b == dir then from[j] else Some(j);
      assert i0.Some? ==> DirEntries(v, d, cat, a)[i0.value].entry.first == DirEntries(v, d', cat, a)[i].entry.first;
      assert j0.Some? ==> DirEntries(v, d, cat, b)[j0.value].entry.first == DirEntries(v, d', cat, b)[j].entry.first;
    }
  }
}
