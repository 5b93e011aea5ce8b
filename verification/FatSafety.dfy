/** What a power cut can leave: each state a device goes through during an operation, compared to the
    one before it. */
module FatSafety {
  import opened Bytes
  import opened FatLayout
  import opened FatChains
  import opened FatNames
  import opened FatLongNames
  import opened FatDirectory
  import opened FatDirectoryChanges
  import opened FatNewEntries
  import opened FatTree
  import opened FatWrites
  import opened FatReads
  import opened FatRewrites
  import opened FatUpdates
  import opened FatCatalogs
  import opened FatTables
  import opened FatImages
  import opened FatRuns

  /** Every live entry points at a chain of its own, terminated and with no free cluster. */
  ghost predicate Consistent(v: Volume, d: Disk) {
    exists cat :: WellFormed(v, d, cat)
  }

  /** A consistent volume that mounts and reads the same as `d`. */
  ghost predicate Intact(v: Volume, d: Disk, s: Disk) {
    Consistent(v, s) && ReadBlock(s, 0) == ReadBlock(d, 0) && SameReads(v, d, s)
  }

  /** A consistent volume that mounts the same as `d`, and reads the same but at `keys` in `dir`. */
  ghost predicate IntactBut(v: Volume, dir: Dir, keys: set<Name>, d: Disk, s: Disk) {
    Consistent(v, s) && ReadBlock(s, 0) == ReadBlock(d, 0) && SameElsewhere(v, Some(Place(dir, keys)), d, s)
  }

  /** ... but at one name in `dir`, whichever it is. */
  ghost predicate IntactButOne(v: Volume, dir: Dir, d: Disk, s: Disk) {
    exists key: Name :: IntactBut(v, dir, {key}, d, s)
  }

  lemma ButOneIs(v: Volume, dir: Dir, key: Name, d: Disk, s: Disk)
    requires IntactBut(v, dir, {key}, d, s)
    ensures IntactButOne(v, dir, d, s) && Consistent(v, s)
  {
  }

  lemma ButOneConsistent(v: Volume, dir: Dir, d: Disk, s: Disk)
    requires IntactButOne(v, dir, d, s)
    ensures Consistent(v, s)
  {
    hide SameElsewhere, Consistent;
  }

  /* Writes to free clusters. */

  lemma FreeNotOwned(v: Volume, d: Disk, cat: Catalog, cs: set<nat>)
    requires WellFormed(v, d, cat) && cs <= FreeSet(v.g, d)
    ensures NoneOwned(cat, cs)
  {
    hide WellFormed, Owned, FatEntry;
    WellFormedIsLaid(v, d, cat);
    forall c | c in cs ensures !Owned(cat, c) {
      if Owned(cat, c) {
        OwnedNotFree(v, d, cat, c);
      }
    }
  }

  /** Whatever is written to clusters that are not in use, the volume is as it was. */
  lemma UnownedWrites(v: Volume, cat: Catalog, fs: set<nat>, ds: set<nat>, d: Disk, s: Disk)
    requires WellFormed(v, d, cat) && Only(v.g, fs, ds, d, s) && NoneOwned(cat, fs) && NoneOwned(cat, ds)
    ensures WellFormed(v, s, cat) && Alike(v, cat, d, s) && Intact(v, d, s)
    ensures forall dir :: dir in cat.dirs ==> DirBlocks(v, s, cat, dir) == DirBlocks(v, d, cat, dir)
  {
    hide WellFormed, Only, NoneOwned, Alike, SameLinks, SameRoot, SameContents, SameReads, DirBlocks;
    WellFormedIsLaid(v, d, cat);
    OnlyMirrors(v, cat, fs, ds, d, s);
    MirrorsWellFormed(v, cat, d, s);
    MirrorsAlike(v, cat, d, s);
    AlikeReads(v, cat, d, s);
    forall dir | dir in cat.dirs ensures DirBlocks(v, s, cat, dir) == DirBlocks(v, d, cat, dir) {
      MirrorsDir(v, cat, d, s, dir);
    }
  }

  lemma AlikeTrans(v: Volume, cat: Catalog, d: Disk, d': Disk, d'': Disk)
    requires Alike(v, cat, d, d') && Alike(v, cat, d', d'')
    ensures Alike(v, cat, d, d'')
  {
    hide ListDir, FatEntry, ReadBlock, Sectors;
    forall h | IsFileChain(v, cat, h) ensures SameEntries(v.g, d, d'', cat.chains[h]) && SameContents(v, cat, h, d, d'')
    {
      assert SameEntries(v.g, d, d', cat.chains[h]) && SameEntries(v.g, d', d'', cat.chains[h]);
      assert SameContents(v, cat, h, d, d') && SameContents(v, cat, h, d', d'');
    }
  }

  /* A directory grown. */

  const ZERO_SLOT: Slot := Zeros(32)

  function EndSlots(n: nat): (slots: seq<Slot>)
    ensures |slots| == n && forall i :: 0 <= i < n ==> slots[i] == ZERO_SLOT
  {
    seq(n, i => ZERO_SLOT)
  }

  lemma ZeroBlocksSlots(blocks: seq<Block>)
    requires forall i :: 0 <= i < |blocks| ==> blocks[i] == ZERO_BLOCK
    ensures Slots(blocks) == EndSlots(16 * |blocks|)
  {
    hide Slots;
    forall k | 0 <= k < 16 * |blocks| ensures Slots(blocks)[k] == ZERO_SLOT {
      SlotsAt(blocks, k);
      assert SlotIn(blocks[k / 16], k % 16) == ZERO_SLOT;
    }
  }

  /** What a volume holds once it is formatted: an empty root directory. */
  function Formatted(v: Volume): Catalog {
    if v.g.root.Fixed? then Catalog(map[], {Root}) else Catalog(map[v.g.root.first := [v.g.root.first]], {Root})
  }

  /** A freshly formatted volume is well formed: so is all that the operations make of it. */
  lemma FormattedIsWellFormed(v: Volume, d: Disk)
    requires v.g.Sound() && (v.g.root.RootChain? ==> IsChain(v.g, d, [v.g.root.first]))
    requires forall i :: 0 <= i < |DirSectors(v, Formatted(v), Root)| ==>
               ReadBlock(d, DirSectors(v, Formatted(v), Root)[i]) == ZERO_BLOCK
    ensures WellFormed(v, d, Formatted(v)) && ReadDir(v, d, []) == Ok([])
  {
    hide Slots, DirSectors, Entries, FindSectors, EndSlots;
    var cat := Formatted(v);
    var blocks := DirBlocks(v, d, cat, Root);
    ZeroBlocksSlots(blocks);
    EndsAreEmpty(v.g.fatType, 16 * |blocks|);
    assert DirEntries(v, d, cat, Root) == [];
    assert WellLaid(v, d, cat);
    ListsDir(v, d, cat, Root);
  }

  lemma EndsAreEmpty(t: FatType, n: nat)
    ensures Entries(t, EndSlots(n)) == [] && Tidy(EndSlots(n))
  {
    NothingRead(t, []);
    assert [] + EndSlots(n) == EndSlots(n);
    assert IsEnd(ZERO_SLOT);
    GrownEntries(t, [], EndSlots(n));
  }

  /** Zeroed clusters, free before, hooked onto a directory's chain give it unused slots. */
  lemma GrowStored(v: Volume, cat: Catalog, dir: Dir, h: nat, cs: seq<nat>, d: Disk, d1: Disk, s: Disk)
    requires WellFormed(v, d, cat) && dir in cat.dirs && HomeOf(v, dir) == Some(h) && h in cat.chains
             && cat.chains[h] != []
    requires IsZeroed(v.g, d, d1, cs) && cs != [] && AllFrom2(cs)
    requires var last := cat.chains[h][|cat.chains[h]| - 1];
             Only(v.g, {last}, {}, d1, s) && FatEntry(v.g, s, last) == cs[0]
    ensures WellFormed(v, s, WithTail(cat, h, cs)) && Alike(v, cat, d, s) && Intact(v, d, s)
    ensures DirSectors(v, WithTail(cat, h, cs), dir) == DirSectors(v, cat, dir) + Sectors(v.g, cs)
    ensures Slots(DirBlocks(v, s, WithTail(cat, h, cs), dir))
            == Slots(DirBlocks(v, d, cat, dir)) + EndSlots(16 * |Sectors(v.g, cs)|)
    ensures SameListings(v, d, cat, s, WithTail(cat, h, cs))
  {
    hide WellFormed, Only, IsPut, Alike, Sectors, Slots, DirBlocks, DirSectors, FatEntry, ReadBlock, Consistent,
      SameReads, HomeOf, Blocks, EndSlots, EntriesIn;
    PutIsThere(v, d, cat, cs, d1);
    UnownedWrites(v, cat, Elements(cs), Elements(cs), d, d1);
    var last := cat.chains[h][|cat.chains[h]| - 1];
    SoundVolume(v, d, cat);
    PutZeros(v.g, d, d1, cs);
    ContentsStay(v.g, cs, {last}, d1, s);
    ZeroStays(v.g, cs, d1, s);
    GrowKeeps(v, cat, dir, h, cs, d1, s);
    AlikeTrans(v, cat, d, d1, s);
    AlikeReads(v, cat, d, s);
    SlotsAppend(DirBlocks(v, d, cat, dir), Blocks(s, Sectors(v.g, cs)));
    ZeroBlocksSlots(Blocks(s, Sectors(v.g, cs)));
    BootStays(v.g, {last}, d1, s);
    IsConsistent(v, s, WithTail(cat, h, cs));
  }

  /** The same directories, with the same entries. */
  ghost predicate SameListings(v: Volume, d: Disk, cat: Catalog, s: Disk, cat': Catalog) {
    && cat'.dirs == cat.dirs && cat'.chains.Keys == cat.chains.Keys
    && forall dir :: dir in cat.dirs ==> DirEntries(v, s, cat', dir) == DirEntries(v, d, cat, dir)
  }

  lemma ListingsPoint(v: Volume, d: Disk, cat: Catalog, s: Disk, cat': Catalog, e: DirEntry)
    requires SameListings(v, d, cat, s, cat') && PointsWell(v, cat, e) && Unreferenced(v, d, cat, e.first)
    ensures PointsWell(v, cat', e) && Unreferenced(v, s, cat', e.first)
  {
  }

  lemma IsConsistent(v: Volume, d: Disk, cat: Catalog)
    requires WellFormed(v, d, cat)
    ensures Consistent(v, d)
  {
  }

  lemma SoundVolume(v: Volume, d: Disk, cat: Catalog)
    requires WellFormed(v, d, cat)
    ensures v.g.Sound()
  {
  }

  lemma PutIsThere(v: Volume, d: Disk, cat: Catalog, cs: seq<nat>, d1: Disk)
    requires WellFormed(v, d, cat) && IsZeroed(v.g, d, d1, cs)
    ensures NoneOwned(cat, Elements(cs)) && Only(v.g, Elements(cs), Elements(cs), d, d1) && IsChain(v.g, d1, cs)
            && AllFrom2(cs)
  {
    hide WellFormed, Only, IsChain, FreeSet, NoneOwned;
    FreeNotOwned(v, d, cat, Elements(cs));
  }

  lemma ZeroStays(g: Geometry, cs: seq<nat>, d: Disk, d': Disk)
    requires AllFrom2(cs) && Blocks(d, Sectors(g, cs)) == Blocks(d', Sectors(g, cs))
    requires forall i :: 0 <= i < |Sectors(g, cs)| ==> ReadBlock(d, Sectors(g, cs)[i]) == ZERO_BLOCK
    ensures forall i :: 0 <= i < |Sectors(g, cs)| ==> ReadBlock(d', Sectors(g, cs)[i]) == ZERO_BLOCK
    ensures forall i :: 0 <= i < |Blocks(d', Sectors(g, cs))| ==> Blocks(d', Sectors(g, cs))[i] == ZERO_BLOCK
  {
    hide Sectors, ReadBlock;
    forall i | 0 <= i < |Sectors(g, cs)| ensures ReadBlock(d', Sectors(g, cs)[i]) == ZERO_BLOCK {
      assert Blocks(d, Sectors(g, cs))[i] == Blocks(d', Sectors(g, cs))[i];
    }
  }

  lemma BootStays(g: Geometry, fs: set<nat>, d: Disk, d': Disk)
    requires g.Sound() && Only(g, fs, {}, d, d')
    ensures ReadBlock(d, 0) == ReadBlock(d', 0)
  {
  }

  /** With no place for them before, `needed` slots fit from the last in use on once there are enough
      unused ones more. */
  lemma GrownPlace(slots: seq<Slot>, needed: nat, more: nat)
    requires Tidy(slots) && forall a: nat :: !IsPlace(slots, a, needed)
    ensures |slots| - EndOf(slots) < needed
    ensures EndOf(slots) + needed <= |slots| + more ==> IsPlace(slots + EndSlots(more), EndOf(slots), needed)
  {
    hide EndOf, EndSlots;
    var end := EndOf(slots);
    assert needed <= |slots| - end ==> IsPlace(slots, end, needed);
    var all := slots + EndSlots(more);
    assert forall i :: 0 <= i < |all| ==> all[i] == if i < |slots| then slots[i] else ZERO_SLOT;
    assert IsEnd(ZERO_SLOT);
  }

  /** How many clusters a directory grows by for `n` slots it has no place for. */
  function Growth(g: Geometry, slots: seq<Slot>, n: nat): nat {
    var per, atEnd := g.ClusterSize() / DIR_ENTRY_SIZE, |slots| - EndOf(slots);
    if per == 0 || n <= atEnd then 0 else (n - atEnd + per - 1) / per
  }

  /** How many it grows by for `n` slots: none if it has a place for them. */
  ghost function GrowthFor(g: Geometry, slots: seq<Slot>, n: nat): nat {
    if exists a: nat :: IsPlace(slots, a, n) then 0 else Growth(g, slots, n)
  }

  /** `taken` clusters of those free in `d` are in use in `s`, and the clusters `freed` are free: no others changed. */
  ghost predicate FreeChanged(g: Geometry, d: Disk, s: Disk, taken: nat, freed: set<nat>) {
    && freed <= FreeSet(g, s) && FreeSet(g, s) - freed <= FreeSet(g, d) && freed !! FreeSet(g, d)
    && |FreeSet(g, s)| == |FreeSet(g, d)| - taken + |freed|
  }

  lemma FreeUnchanged(g: Geometry, d: Disk, s: Disk)
    requires FreeSet(g, s) == FreeSet(g, d)
    ensures FreeChanged(g, d, s, 0, {})
  {
    hide FreeSet;
  }

  lemma FreeTwice(g: Geometry, d: Disk, d': Disk, s: Disk, taken: nat, more: nat)
    requires FreeChanged(g, d, d', taken, {}) && FreeChanged(g, d', s, more, {})
    ensures FreeChanged(g, d, s, taken + more, {})
  {
    hide FreeSet;
  }

  /** A chain given back that was not free before. */
  lemma FreeThenFreed(g: Geometry, d: Disk, d': Disk, s: Disk, taken: nat, freed: set<nat>)
    requires FreeChanged(g, d, d', taken, {}) && FreeSet(g, s) == FreeSet(g, d') + freed && freed !! FreeSet(g, d)
    ensures FreeChanged(g, d, s, taken, freed)
  {
    hide FreeSet;
    assert freed !! FreeSet(g, d');
    assert |FreeSet(g, s)| == |FreeSet(g, d')| + |freed|;
  }

  /** Why `n` slots cannot be added to a directory, with `free` clusters left. */
  ghost function AddFails(g: Geometry, home: Option<nat>, slots: seq<Slot>, n: nat, free: int): Option<FatError> {
    if exists a: nat :: IsPlace(slots, a, n) then None
    else if home.None? then Some(DirectoryFull)
    else if free < Growth(g, slots, n) then Some(NoSpace)
    else None
  }

  /* A directory stored. */

  lemma StoredDir(v: Volume, cat: Catalog, dir: Dir, d: Disk, s: Disk, slots: seq<Slot>)
    requires WellFormed(v, d, cat) && dir in cat.dirs && Holds(d, s, DirSectors(v, cat, dir), slots)
    ensures ChangedIn(v, cat, dir, d, s) && ReadBlock(s, 0) == ReadBlock(d, 0)
    ensures Slots(DirBlocks(v, s, cat, dir)) == slots && DirEntries(v, s, cat, dir) == Entries(v.g.fatType, slots)
  {
    hide WellFormed, Slots, Entries, DirSectors;
    WellFormedIsLaid(v, d, cat);
    var blocks := HoldsBlocks(d, s, DirSectors(v, cat, dir), slots);
    WroteDir(v, d, s, cat, dir, blocks);
  }

  lemma ChangeAlike(v: Volume, cat: Catalog, dir: Dir, d: Disk, s: Disk)
    requires WellFormed(v, d, cat) && dir in cat.dirs && ChangedIn(v, cat, dir, d, s)
    requires DirEntries(v, s, cat, dir) == DirEntries(v, d, cat, dir)
    ensures Alike(v, cat, d, s)
  {
    hide WellFormed, ChangedIn, SameLists, SameFiles, DirEntries;
    ChangeLists(v, cat, dir, d, s);
    WellFormedIsLaid(v, d, cat);
    FilesElsewhere(v, cat, dir, d, s);
  }

  /** A directory rewritten to read the same leaves the volume as it was. */
  lemma StoredSame(v: Volume, cat: Catalog, dir: Dir, d: Disk, s: Disk, slots: seq<Slot>)
    requires WellFormed(v, d, cat) && dir in cat.dirs && Holds(d, s, DirSectors(v, cat, dir), slots)
    requires Tidy(slots) && Entries(v.g.fatType, slots) == DirEntries(v, d, cat, dir)
    ensures WellFormed(v, s, cat) && Alike(v, cat, d, s) && Intact(v, d, s)
  {
    hide WellFormed, ChangedIn, Slots, Entries, DirSectors, DirEntries, Tidy, Holds, Alike, SameReads, Confined;
    StoredDir(v, cat, dir, d, s, slots);
    var was := DirEntries(v, d, cat, dir);
    assert Splice(was, 0, 0, []) == was;
    SpliceKeeps(v, cat, dir, d, s, 0, 0, false, []);
    ChangeAlike(v, cat, dir, d, s);
    AlikeReads(v, cat, d, s);
  }

  /** `name` in `dir` shows the entry `e`, which has the file's bytes `d` has for it; all else is as
      in `d`. */
  ghost predicate Shows(v: Volume, cat: Catalog, dir: Dir, name: Name, e: DirEntry, d: Disk, s: Disk) {
    && SameElsewhere(v, Some(Place(dir, {v.fold(name)})), d, s) && SameFiles(v, cat, d, s)
       && SameLists(v, cat.dirs - {dir}, d, s)
    && Lookup(v, s, dir, name) == Ok(e)
    && forall path :: Resolve(v, d, Root, path) == Ok(dir) ==> Resolve(v, s, Root, path) == Ok(dir)
  }

  /** Reading a name that shows a file. */
  lemma ShownReads(v: Volume, cat: Catalog, dir: Dir, name: Name, e: DirEntry, d: Disk, s: Disk, path: seq<Name>)
    requires WellFormed(v, d, cat) && Shows(v, cat, dir, name, e, d, s) && Resolve(v, d, Root, path) == Ok(dir)
    requires e.kind == File && (e.first == 0 || IsFileChain(v, cat, e.first))
    ensures ReadFile(v, s, path, name) == FileBytes(v.g, d, e.first, e.size)
  {
    hide WellFormed, Resolve, Lookup, FileBytes, SameElsewhere, IsFileChain, SameContents, SameEntries, SameLists;
    WellFormedIsLaid(v, d, cat);
    if e.first == 0 {
      EmptySame(v, d, s, e.size);
    } else {
      FileIsThere(v, cat, e.first);
      FileSame(v, cat, d, s, e.first, e.size);
    }
  }

  lemma FileIsThere(v: Volume, cat: Catalog, h: nat)
    requires IsFileChain(v, cat, h)
    ensures h in cat.chains
  {
  }

  /* A file replaced. */

  /** Slots with a file's entry pointed at `x`. */
  function ReplacedSlots(slots: seq<Slot>, p: nat, x: Extent, stamp: Stamp): seq<Slot>
    requires p < |slots| && x.Fits(Fat32) && stamp.Fits()
  {
    slots[p := SetModified(SetExtent(slots[p], x), stamp)]
  }

  lemma ReplaceStored(v: Volume, cat: Catalog, dir: Dir, d: Disk, s: Disk, name: Name, m: nat, p: nat, x: Extent,
                      stamp: Stamp)
    requires WellFormed(v, d, cat) && dir in cat.dirs && x.Fits(v.g.fatType) && stamp.Fits()
             && p < |Slots(DirBlocks(v, d, cat, dir))|
    requires Holds(d, s, DirSectors(v, cat, dir), ReplacedSlots(Slots(DirBlocks(v, d, cat, dir)), p, x, stamp))
    requires m < |DirEntries(v, d, cat, dir)| && DirEntries(v, d, cat, dir)[m].hi == p + 1
             && DirEntries(v, d, cat, dir)[m].entry.kind == File
    requires Find(v, DirEntries(v, d, cat, dir), name) == m
    requires (x.first == 0 || IsFileChain(v, cat, x.first)) && Unreferenced(v, d, cat, x.first)
    ensures WellFormed(v, s, cat) && Unreferenced(v, s, cat, DirEntries(v, d, cat, dir)[m].entry.first)
            && ReadBlock(s, 0) == ReadBlock(d, 0)
    ensures Shows(v, cat, dir, name,
                  DirEntry(DirEntries(v, d, cat, dir)[m].entry.name, File, x.size, stamp.date, stamp.time, x.first), d,
                      s)
  {
    hide WellFormed, ChangedIn, Slots, Entries, DirSectors, Tidy, Holds, Unreferenced, IsFileChain, Find, Passes,
      Resolve, SameFiles, SameElsewhere, SameLists, ListDir, SetModified, SetExtent;
    var was, slots := DirEntries(v, d, cat, dir), Slots(DirBlocks(v, d, cat, dir));
    DirIsTidy(v, d, cat, dir);
    ReplacedEntries(v.g.fatType, slots, m, p, x, stamp);
    StoredDir(v, cat, dir, d, s, ReplacedSlots(slots, p, x, stamp));
    var e := Replaced(was, m, x, stamp)[m];
    assert Splice(was, m, 1, [e]) == Replaced(was, m, x, stamp);
    NewPoints(v, cat, e.entry);
    SpliceKeeps(v, cat, dir, d, s, m, 1, false, [e]);
    assert was[m..m + 1] + [e] == [was[m], e];
    TwoKeys(v, was[m], e);
    assert {v.fold(was[m].entry.name), v.fold(e.entry.name)} == {v.fold(name)};
    WellFormedIsLaid(v, d, cat);
    FilesElsewhere(v, cat, dir, d, s);
    ChangeLists(v, cat, dir, d, s);
    ReplacedShows(v, cat, dir, d, s, m, x, stamp, name);
  }

  lemma NewPoints(v: Volume, cat: Catalog, e: DirEntry)
    requires e.kind == File && (e.first == 0 || IsFileChain(v, cat, e.first))
    ensures PointsWell(v, cat, e)
  {
  }

  /* An entry added. */

  /** The state once only some sectors of a new entry's slots are written, or all of them. */
  lemma AddMixed(slots: seq<Slot>, at: nat, added: seq<Slot>, k: nat)
    requires at + |added| <= |slots| && at < 16 * k <= |slots|
    ensures 16 * k < at + |added| ==> Mixed(slots, Patch(slots, at, added), k) == Patch(slots, at, added[..16 * k - at])
    ensures 16 * k >= at + |added| ==> Mixed(slots, Patch(slots, at, added), k) == Patch(slots, at, added)
  {
  }

  /** While the last slot of a new entry is not written, the volume is as it was. */
  lemma AddStoredPart(v: Volume, cat: Catalog, dir: Dir, d: Disk, s: Disk, at: nat, n: nat, pieces: seq<Slot>)
    requires WellFormed(v, d, cat) && dir in cat.dirs && |pieces| < n && AllPieces(pieces)
    requires IsPlace(Slots(DirBlocks(v, d, cat, dir)), at, n)
    requires Holds(d, s, DirSectors(v, cat, dir), Patch(Slots(DirBlocks(v, d, cat, dir)), at, pieces))
    ensures WellFormed(v, s, cat) && Alike(v, cat, d, s) && Intact(v, d, s)
  {
    hide WellFormed, Slots, Entries, DirSectors, DirBlocks, Tidy, Holds, Alike, Intact, Patch, IsEnd, IsLong, IsDeleted,
      AllFree;
    var slots := Slots(DirBlocks(v, d, cat, dir));
    DirIsTidy(v, d, cat, dir);
    AddPart(v.g.fatType, slots, at, n, pieces);
    PlaceTidy(slots, at, n, pieces);
    StoredSame(v, cat, dir, d, s, Patch(slots, at, pieces));
  }

  /** Once it is, the volume has one entry more. */
  lemma AddStoredWhole(v: Volume, cat: Catalog, dir: Dir, d: Disk, s: Disk, at: nat, name: Name, alias: seq<byte>,
                       attr: byte, x: Extent, stamp: Stamp)
    requires WellFormed(v, d, cat) && dir in cat.dirs && CanAdd(v.g.fatType, name, alias, attr, x, stamp)
    requires IsPlace(Slots(DirBlocks(v, d, cat, dir)), at, |NewSlots(name, alias, attr, x, stamp)|)
    requires Holds(d, s, DirSectors(v, cat, dir),
                   Patch(Slots(DirBlocks(v, d, cat, dir)), at, NewSlots(name, alias, attr, x, stamp)))
    requires PointsWell(v, cat, NewEntry(name, attr, x, stamp)) && Unreferenced(v, d, cat, x.first)
    ensures WellFormed(v, s, cat) && ReadBlock(s, 0) == ReadBlock(d, 0) && IntactButOne(v, dir, d, s)
    ensures NoMatch(v, DirEntries(v, d, cat, dir), v.fold(name))
            && ReadsBack(name, ScanTo(v.g.fatType, Slots(DirBlocks(v, d, cat, dir)), at).long)
            ==> Shows(v, cat, dir, name, NewEntry(name, attr, x, stamp), d, s)
  {
    hide WellFormed, ChangedIn, Slots, Entries, DirSectors, DirBlocks, Tidy, Holds, Patch, CanAdd, NewSlots, AllFree,
      IsEnd, PointsWell, Unreferenced, NoMatch, ReadsBack, ScanTo, Resolve, Passes, Lookup, SameFiles, SameElsewhere,
      SameLists;
    var slots, was := Slots(DirBlocks(v, d, cat, dir)), DirEntries(v, d, cat, dir);
    DirIsTidy(v, d, cat, dir);
    var m, found := AddedEntries(v.g.fatType, slots, at, name, alias, attr, x, stamp);
    StoredAdded(v, cat, dir, d, s, at, name, alias, attr, x, stamp);
    if found != [] {
      TargetPoints(v, d, cat, found[0].entry, NewEntry(name, attr, x, stamp), x.first);
    }
    SpliceKeeps(v, cat, dir, d, s, m, 0, false, found);
    assert was[m..m + 0] + found == found;
    AtMostOneName(v, cat, dir, found, name, d, s);
    if NoMatch(v, was, v.fold(name)) && ReadsBack(name, ScanTo(v.g.fatType, slots, at).long) {
      assert was[m..m + 0] + found == [found[0]];
      OneKey(v, found[0]);
      AddedShows(v, cat, dir, d, s, m, found[0], name);
      WellFormedIsLaid(v, d, cat);
      FilesElsewhere(v, cat, dir, d, s);
      ChangeLists(v, cat, dir, d, s);
    }
  }

  lemma AtMostOneName(v: Volume, cat: Catalog, dir: Dir, found: seq<Located>, name: Name, d: Disk, s: Disk)
    requires |found| <= 1 && Confined(v, dir, KeysOf(v, found), d, s) && WellFormed(v, s, cat)
             && ReadBlock(s, 0) == ReadBlock(d, 0)
    ensures IntactButOne(v, dir, d, s)
  {
    hide WellFormed, SameElsewhere, Passes, Resolve, KeysOf, Consistent;
    IsConsistent(v, s, cat);
    var key := if found == [] then v.fold(name) else v.fold(found[0].entry.name);
    NoKeys(v);
    if found != [] {
      assert found == [found[0]];
      OneKey(v, found[0]);
    }
    ElsewhereMore(v, dir, KeysOf(v, found), {key}, d, s);
    ButOneIs(v, dir, key, d, s);
  }

  lemma NoKeys(v: Volume)
    ensures KeysOf(v, []) == {}
  {
  }

  lemma StoredAdded(v: Volume, cat: Catalog, dir: Dir, d: Disk, s: Disk, at: nat, name: Name, alias: seq<byte>,
                    attr: byte, x: Extent, stamp: Stamp)
    requires WellFormed(v, d, cat) && dir in cat.dirs && CanAdd(v.g.fatType, name, alias, attr, x, stamp)
    requires IsPlace(Slots(DirBlocks(v, d, cat, dir)), at, |NewSlots(name, alias, attr, x, stamp)|)
    requires Holds(d, s, DirSectors(v, cat, dir),
                   Patch(Slots(DirBlocks(v, d, cat, dir)), at, NewSlots(name, alias, attr, x, stamp)))
    ensures ChangedIn(v, cat, dir, d, s) && ReadBlock(s, 0) == ReadBlock(d, 0)
    ensures Slots(DirBlocks(v, s, cat, dir))
            == Patch(Slots(DirBlocks(v, d, cat, dir)), at, NewSlots(name, alias, attr, x, stamp))
    ensures DirEntries(v, s, cat, dir) == Entries(v.g.fatType, Slots(DirBlocks(v, s, cat, dir)))
  {
    hide WellFormed, ChangedIn, Slots, Entries, DirSectors, DirBlocks, Holds, Patch, NewSlots, AllFree, CheckName,
      IsText;
    NoZeros(name);
    StoredDir(v, cat, dir, d, s, Patch(Slots(DirBlocks(v, d, cat, dir)), at, NewSlots(name, alias, attr, x, stamp)));
  }

  lemma TargetPoints(v: Volume, d: Disk, cat: Catalog, e: DirEntry, e': DirEntry, first: nat)
    requires SameTarget(e, e') && PointsWell(v, cat, e') && e'.first == first && Unreferenced(v, d, cat, first)
    ensures PointsWell(v, cat, e) && Unreferenced(v, d, cat, e.first)
  {
  }

  /* An entry deleted. */

  lemma DeleteMixed(slots: seq<Slot>, lo: nat, hi: nat, k: nat)
    requires lo < hi <= |slots| && lo < 16 * k <= |slots|
    ensures Mixed(slots, MarkDeleted(slots, lo, hi), k) == MarkDeleted(slots, lo, if 16 * k < hi then 16 * k else hi)
  {
  }

  /** Some or all of an entry's slots marked deleted: until the last of them is, it is there under its 8.3 name. */
  lemma DeleteStored(v: Volume, cat: Catalog, dir: Dir, d: Disk, s: Disk, m: nat, p: nat, to: nat)
    requires WellFormed(v, d, cat) && dir in cat.dirs && m < |DirEntries(v, d, cat, dir)|
             && DirEntries(v, d, cat, dir)[m].hi == p + 1
    requires DirEntries(v, d, cat, dir)[m].lo < to <= p + 1 <= |Slots(DirBlocks(v, d, cat, dir))|
    requires Holds(d, s, DirSectors(v, cat, dir),
                   MarkDeleted(Slots(DirBlocks(v, d, cat, dir)), DirEntries(v, d, cat, dir)[m].lo, to))
    ensures WellFormed(v, s, cat) && ReadBlock(s, 0) == ReadBlock(d, 0) && SameFiles(v, cat, d, s)
            && ChangedIn(v, cat, dir, d, s)
    ensures var was, left := DirEntries(v, d, cat, dir), LeftOver(v.g.fatType, Slots(DirBlocks(v, d, cat, dir)), p, to);
            && DirEntries(v, s, cat, dir) == Splice(was, m, 1, left)
            && Confined(v, dir, KeysOf(v, [was[m]] + left), d, s)
    ensures to == p + 1 ==> Unreferenced(v, s, cat, DirEntries(v, d, cat, dir)[m].entry.first)
  {
    hide WellFormed, ChangedIn, Slots, Entries, DirSectors, DirBlocks, Tidy, Holds, MarkDeleted, Unreferenced,
      SameFiles, SameElsewhere, Passes, Resolve, UnderShort, KeysOf;
    var slots, was := Slots(DirBlocks(v, d, cat, dir)), DirEntries(v, d, cat, dir);
    DirIsTidy(v, d, cat, dir);
    DeletedEntries(v.g.fatType, slots, m, p, to);
    StoredDir(v, cat, dir, d, s, MarkDeleted(slots, was[m].lo, to));
    var left := LeftOver(v.g.fatType, slots, p, to);
    SpliceKeeps(v, cat, dir, d, s, m, 1, left != [], left);
    WellFormedIsLaid(v, d, cat);
    FilesElsewhere(v, cat, dir, d, s);
    assert was[m..m + 1] == [was[m]];
  }

  lemma OneKey(v: Volume, e: Located)
    ensures KeysOf(v, [e]) == {v.fold(e.entry.name)}
  {
    assert [e][0] == e;
    assert v.fold(e.entry.name) in KeysOf(v, [e]);
    assert forall k :: k in KeysOf(v, [e]) ==> k == v.fold(e.entry.name);
  }

  lemma TwoKeys(v: Volume, a: Located, b: Located)
    ensures KeysOf(v, [a, b]) == {v.fold(a.entry.name), v.fold(b.entry.name)}
  {
    assert [a, b][0] == a && [a, b][1] == b;
    assert v.fold(a.entry.name) in KeysOf(v, [a, b]) && v.fold(b.entry.name) in KeysOf(v, [a, b]);
    assert forall k :: k in KeysOf(v, [a, b]) ==> k == v.fold(a.entry.name) || k == v.fold(b.entry.name);
  }

  lemma {:induction false} PassesMore(v: Volume, d: Disk, from: Dir, path: seq<Name>, dir: Dir, keys: set<Name>,
                                      more: set<Name>)
    requires keys <= more && Passes(v, d, from, path, Some(Place(dir, keys)))
    ensures Passes(v, d, from, path, Some(Place(dir, more)))
    decreases path
  {
    hide Child;
    if !IsAt(v, from, path[0], Some(Place(dir, keys))) {
      PassesMore(v, d, Child(v, d, from, path[0]).value, path[1..], dir, keys, more);
    }
  }

  lemma ElsewhereMore(v: Volume, dir: Dir, keys: set<Name>, more: set<Name>, d: Disk, s: Disk)
    requires keys <= more && SameElsewhere(v, Some(Place(dir, keys)), d, s)
    ensures SameElsewhere(v, Some(Place(dir, more)), d, s)
  {
    hide ReadFile, ReadDir, Passes, Resolve;
    forall path, name | Avoids(v, d, path, name, Some(Place(dir, more)))
      ensures ReadFile(v, d, path, name) == ReadFile(v, s, path, name)
    {
      if Passes(v, d, Root, path, Some(Place(dir, keys))) {
        PassesMore(v, d, Root, path, dir, keys, more);
      }
      assert Avoids(v, d, path, name, Some(Place(dir, keys)));
    }
    forall path | IsClear(v, d, path, Some(Place(dir, more))) ensures ReadDir(v, d, path) == ReadDir(v, s, path) {
      if Passes(v, d, Root, path, Some(Place(dir, keys))) {
        PassesMore(v, d, Root, path, dir, keys, more);
      }
      assert IsClear(v, d, path, Some(Place(dir, keys)));
    }
  }

  /** The same directories, and files with the same chains. */
  ghost predicate FilesKept(v: Volume, cat: Catalog, cat': Catalog) {
    cat'.dirs == cat.dirs
      && forall k :: IsFileChain(v, cat, k) ==> IsFileChain(v, cat', k) && cat'.chains[k] == cat.chains[k]
  }

  lemma TailKeepsFiles(v: Volume, cat: Catalog, dir: Dir, h: nat, more: seq<nat>)
    requires dir in cat.dirs && HomeOf(v, dir) == Some(h) && h in cat.chains
    ensures FilesKept(v, cat, WithTail(cat, h, more))
  {
  }

  /** What shows after a change to a state like one before, shows compared to that one. */
  lemma AlikeThenShows(v: Volume, cat: Catalog, cat': Catalog, dir: Dir, name: Name, e: DirEntry, d: Disk, d': Disk,
                       s: Disk)
    requires WellFormed(v, d, cat) && Alike(v, cat, d, d') && FilesKept(v, cat, cat')
             && Shows(v, cat', dir, name, e, d', s)
    ensures Shows(v, cat, dir, name, e, d, s)
  {
    hide WellFormed, ListDir, SameElsewhere, Lookup, Resolve, FatEntry, ReadBlock, Sectors;
    AlikeThenElsewhere(v, cat, Some(Place(dir, {v.fold(name)})), d, d', s);
    AlikeReads(v, cat, d, d');
    forall k | IsFileChain(v, cat, k) ensures SameEntries(v.g, d, s, cat.chains[k]) && SameContents(v, cat, k, d, s) {
      assert IsFileChain(v, cat', k) && cat'.chains[k] == cat.chains[k];
      assert SameEntries(v.g, d, d', cat.chains[k]) && SameEntries(v.g, d', s, cat'.chains[k]);
      assert SameContents(v, cat, k, d, d') && SameContents(v, cat', k, d', s);
    }
  }

  lemma AlikeThenButOne(v: Volume, cat: Catalog, dir: Dir, d: Disk, d': Disk, s: Disk)
    requires WellFormed(v, d, cat) && Alike(v, cat, d, d') && ReadBlock(d', 0) == ReadBlock(d, 0)
             && IntactButOne(v, dir, d', s)
    ensures IntactButOne(v, dir, d, s)
  {
    hide WellFormed, Alike, SameElsewhere, Consistent, ReadBlock;
    var key :| IntactBut(v, dir, {key}, d', s);
    AlikeThenElsewhere(v, cat, Some(Place(dir, {key})), d, d', s);
    ButOneIs(v, dir, key, d, s);
  }

  lemma ButOneThenIntact(v: Volume, dir: Dir, d: Disk, d': Disk, s: Disk)
    requires IntactButOne(v, dir, d, d') && Intact(v, d', s)
    ensures IntactButOne(v, dir, d, s)
  {
    hide IntactBut, Intact;
    var key :| IntactBut(v, dir, {key}, d, d');
    ButThenIntact(v, dir, {key}, d, d', s);
    ButOneIs(v, dir, key, d, s);
  }

  lemma ButThenIntact(v: Volume, dir: Dir, keys: set<Name>, d: Disk, d': Disk, s: Disk)
    requires IntactBut(v, dir, keys, d, d') && Intact(v, d', s)
    ensures IntactBut(v, dir, keys, d, s)
  {
    hide ReadFile, ReadDir, Avoids, IsClear, Consistent;
    forall path, n | Avoids(v, d, path, n, Some(Place(dir, keys)))
      ensures ReadFile(v, d, path, n) == ReadFile(v, s, path, n)
    {
      assert ReadFile(v, d', path, n) == ReadFile(v, s, path, n);
    }
    forall path | IsClear(v, d, path, Some(Place(dir, keys))) ensures ReadDir(v, d, path) == ReadDir(v, s, path) {
      assert ReadDir(v, d', path) == ReadDir(v, s, path);
    }
  }

  /** A state like another, and well formed, is intact. */
  lemma AlikeIntact(v: Volume, cat: Catalog, d: Disk, d': Disk, s: Disk)
    requires WellFormed(v, d, cat) && Alike(v, cat, d, d') && ReadBlock(d', 0) == ReadBlock(d, 0) && Intact(v, d', s)
    ensures Intact(v, d, s)
  {
    hide WellFormed, Alike, ReadFile, ReadDir, Consistent, Resolve;
    AlikeReads(v, cat, d, d');
  }

  lemma AlikeItself(v: Volume, cat: Catalog, d: Disk)
    requires WellFormed(v, d, cat)
    ensures Alike(v, cat, d, d)
  {
    hide EntriesPointWell, EntriesApart, DirsTidy, ListDir, FatEntry, ReadBlock, Sectors;
    forall h | IsFileChain(v, cat, h) ensures SameContents(v, cat, h, d, d) {
      ChainFrom2(v, d, cat, h);
    }
  }

  /* The sectors of directories. */

  lemma DirIsStorable(v: Volume, d: Disk, cat: Catalog, dir: Dir)
    requires WellFormed(v, d, cat) && dir in cat.dirs
    ensures DirBlocks(v, d, cat, dir) == Blocks(d, DirSectors(v, cat, dir))
            && |Slots(DirBlocks(v, d, cat, dir))| == 16 * |DirSectors(v, cat, dir)|
    ensures Distinct(DirSectors(v, cat, dir))
            && forall i :: 0 <= i < |DirSectors(v, cat, dir)| ==> !v.g.InFats(DirSectors(v, cat, dir)[i])
  {
    hide Sectors, EntriesPointWell, EntriesApart, DirsTidy, FatEntry;
    WellFormedIsLaid(v, d, cat);
    Regions(v.g);
    var sectors := DirSectors(v, cat, dir);
    forall i | 0 <= i < |sectors| ensures !v.g.InFats(sectors[i]) {
      DirSectorIsData(v, d, cat, dir, i);
    }
    var home := HomeOf(v, dir);
    if home.Some? {
      ChainFrom2(v, d, cat, home.value);
      ChainIsDistinct(v.g, d, cat.chains[home.value]);
      SectorsAreDistinct(v.g, cat.chains[home.value]);
    }
  }

  /** How many slots an entry for `name` takes. */
  function EntrySize(name: Name): nat { if IsExactShort(name) then 1 else Pieces(name) + 1 }

  /** A new entry for `name` will read back under it. */
  ghost predicate NameKept(t: FatType, slots: seq<Slot>, name: Name) {
    forall at: nat :: at <= |slots| && IsChosen(slots, EntrySize(name), at) ==>
        ReadsBack(name, ScanTo(t, slots, at).long)
  }

  ghost predicate SeenIntact(v: Volume, d: Disk, was: set<Disk>, now: set<Disk>) {
    was <= now && forall s :: s in now ==> s in was || Intact(v, d, s)
  }

  /** Everything seen while writing to clusters not in use is intact. */
  lemma SeenUnowned(v: Volume, cat: Catalog, sc: Scope, was: set<Disk>, now: set<Disk>)
    requires WellFormed(v, sc.base, cat) && NoneOwned(cat, sc.fs) && NoneOwned(cat, sc.ds)
             && SeenWithin(v.g, sc, was, now)
    ensures SeenIntact(v, sc.base, was, now)
  {
    hide WellFormed, Intact, Only, NoneOwned;
    forall s | s in now && s !in was ensures Intact(v, sc.base, s) {
      UnownedWrites(v, cat, sc.fs, sc.ds, sc.base, s);
    }
  }

  lemma SeenNothing(v: Volume, d: Disk, seen: set<Disk>)
    ensures SeenIntact(v, d, seen, seen)
  {
  }

  /** A directory with a chain: following it finds the chain. */
  lemma HomeChain(v: Volume, d: Disk, cat: Catalog, dir: Dir)
    requires WellFormed(v, d, cat) && dir in cat.dirs && HomeOf(v, dir).Some?
    ensures var h := HomeOf(v, dir).value;
            && h in cat.chains && cat.chains[h] != [] && Walk(v.g, d, Some(h), [], None) == Ok(cat.chains[h])
  {
    hide EntriesPointWell, EntriesApart, DirsTidy, FatEntry, Walk;
    var h := HomeOf(v, dir).value;
    ChainFrom2(v, d, cat, h);
    WalkFindsChain(v.g, d, cat.chains[h], 0);
    assert cat.chains[h][..0] == [];
  }

  /** Before hooking new clusters `cs` onto the chain at `h`. */
  lemma GrowReady(v: Volume, cat: Catalog, h: nat, cs: seq<nat>, d: Disk, d1: Disk)
    requires WellFormed(v, d, cat) && h in cat.chains && cat.chains[h] != [] && IsZeroed(v.g, d, d1, cs)
    ensures var last := cat.chains[h][|cat.chains[h]| - 1]; v.g.IsCluster(last) && last !in FreeSet(v.g, d1)
    ensures cs != [] && v.g.IsCluster(cs[0]) && AllFrom2(cs) && NoneOwned(cat, Elements(cs))
  {
    hide WellFormed, FatEntry, Only, NoneOwned, Sectors, Chop, Pad;
    PutIsThere(v, d, cat, cs, d1);
    var last := cat.chains[h][|cat.chains[h]| - 1];
    WellFormedIsLaid(v, d, cat);
    assert Owned(cat, last);
    OwnedNotFree(v, d, cat, last);
  }

  lemma SeenHooked(v: Volume, cat: Catalog, dir: Dir, h: nat, cs: seq<nat>, d: Disk, d1: Disk, was: set<Disk>,
                   mid: set<Disk>, now: set<Disk>)
    requires WellFormed(v, d, cat) && dir in cat.dirs && HomeOf(v, dir) == Some(h) && h in cat.chains
             && cat.chains[h] != []
    requires IsZeroed(v.g, d, d1, cs) && cs != [] && AllFrom2(cs)
    requires SeenIntact(v, d, was, mid) && mid <= now
    requires var last := cat.chains[h][|cat.chains[h]| - 1];
             forall s :: s in now ==> s in mid || (Only(v.g, {last}, {}, d1, s) && FatEntry(v.g, s, last) == cs[0])
    ensures SeenIntact(v, d, was, now)
  {
    hide WellFormed, Intact, Only, FatEntry, IsPut, Alike, Sectors, DirBlocks, DirSectors;
    forall s | s in now && s !in was && s !in mid ensures Intact(v, d, s) {
      GrowStored(v, cat, dir, h, cs, d, d1, s);
    }
  }

  /* Adding an entry, step by step. */

  /** A consistent volume that reads as `d` but at one name in `dir`: `name`, which shows `e`, if it is `kept`. */
  ghost predicate Added(v: Volume, cat: Catalog, dir: Dir, name: Name, e: DirEntry, kept: bool, d: Disk, s: Disk) {
    Consistent(v, s) && ReadBlock(s, 0) == ReadBlock(d, 0) && IntactButOne(v, dir, d, s)
      && (kept ==> Shows(v, cat, dir, name, e, d, s))
  }

  ghost predicate SeenAdded(v: Volume, cat: Catalog, dir: Dir, name: Name, e: DirEntry, kept: bool, d: Disk,
                            was: set<Disk>, now: set<Disk>)
  {
    was <= now && forall s :: s in now ==> s in was || Intact(v, d, s) || Added(v, cat, dir, name, e, kept, d, s)
  }

  /** `mid` is `d` with at most `dir` grown. */
  ghost predicate IsReady(v: Volume, cat: Catalog, d: Disk, cat': Catalog, mid: Disk) {
    && WellFormed(v, d, cat) && WellFormed(v, mid, cat') && Alike(v, cat, d, mid)
       && ReadBlock(mid, 0) == ReadBlock(d, 0)
    && FilesKept(v, cat, cat') && SameListings(v, d, cat, mid, cat')
  }

  lemma ReadyItself(v: Volume, cat: Catalog, d: Disk)
    requires WellFormed(v, d, cat)
    ensures IsReady(v, cat, d, cat, d)
  {
    hide WellFormed, Alike, DirEntries;
    AlikeItself(v, cat, d);
  }

  /** The name is new to the directory, and its entry will read back under it. */
  ghost predicate IsKept(v: Volume, d: Disk, cat: Catalog, dir: Dir, name: Name) {
    NoMatch(v, DirEntries(v, d, cat, dir), v.fold(name))
      && NameKept(v.g.fatType, Slots(DirBlocks(v, d, cat, dir)), name)
  }

  lemma AddedWhole(v: Volume, cat: Catalog, d: Disk, cat': Catalog, mid: Disk, dir: Dir, s: Disk, at: nat, name: Name,
                   alias: seq<byte>, attr: byte, x: Extent, stamp: Stamp)
    requires IsReady(v, cat, d, cat', mid) && dir in cat.dirs && CanAdd(v.g.fatType, name, alias, attr, x, stamp)
    requires PointsWell(v, cat, NewEntry(name, attr, x, stamp)) && Unreferenced(v, d, cat, x.first)
    requires IsPlace(Slots(DirBlocks(v, mid, cat', dir)), at, |NewSlots(name, alias, attr, x, stamp)|)
    requires Holds(mid, s, DirSectors(v, cat', dir),
                   Patch(Slots(DirBlocks(v, mid, cat', dir)), at, NewSlots(name, alias, attr, x, stamp)))
    requires IsKept(v, d, cat, dir, name) ==>
             ReadsBack(name, ScanTo(v.g.fatType, Slots(DirBlocks(v, mid, cat', dir)), at).long)
    ensures Added(v, cat, dir, name, NewEntry(name, attr, x, stamp), IsKept(v, d, cat, dir, name), d, s)
  {
    hide WellFormed, Alike, CanAdd, PointsWell, Unreferenced, AllFree, IsEnd, NewSlots, Patch, Slots, DirBlocks,
      DirSectors, Holds, NameKept, ReadsBack, ScanTo, Shows, FilesKept, EntriesIn, NoMatch;
    var e := NewEntry(name, attr, x, stamp);
    ListingsPoint(v, d, cat, mid, cat', e);
    AddStoredWhole(v, cat', dir, mid, s, at, name, alias, attr, x, stamp);
    IsConsistent(v, s, cat');
    AlikeThenButOne(v, cat, dir, d, mid, s);
    if IsKept(v, d, cat, dir, name) {
      AlikeThenShows(v, cat, cat', dir, name, e, d, mid, s);
    }
  }

  lemma AddedPart(v: Volume, cat: Catalog, d: Disk, cat': Catalog, mid: Disk, dir: Dir, s: Disk, at: nat, k: nat,
                  name: Name, alias: seq<byte>, attr: byte, x: Extent, stamp: Stamp)
    requires IsReady(v, cat, d, cat', mid) && dir in cat.dirs && CanAdd(v.g.fatType, name, alias, attr, x, stamp)
    requires IsPlace(Slots(DirBlocks(v, mid, cat', dir)), at, |NewSlots(name, alias, attr, x, stamp)|)
    requires at < 16 * k < at + |NewSlots(name, alias, attr, x, stamp)|
    requires Holds(mid, s, DirSectors(v, cat', dir),
                   Patch(Slots(DirBlocks(v, mid, cat', dir)), at, NewSlots(name, alias, attr, x, stamp)[..16 * k - at]))
    ensures Intact(v, d, s)
  {
    hide WellFormed, Alike, AllFree, IsEnd, IsLong, IsDeleted, NewSlots, Patch, Slots, DirBlocks, DirSectors, Holds,
      FilesKept, EntriesIn, Intact, CheckName, IsText;
    NoZeros(name);
    var added := NewSlots(name, alias, attr, x, stamp);
    NewSlotsShape(v.g.fatType, name, alias, attr, x, stamp);
    var pieces := added[..16 * k - at];
    assert forall i :: 0 <= i < |pieces| ==> pieces[i] == added[..|added| - 1][i];
    AddStoredPart(v, cat', dir, mid, s, at, |added|, pieces);
    AlikeIntact(v, cat, d, mid, s);
  }

  /** Where the entry goes, and the directory grown or not, the name reads back if it is kept. */
  lemma KeptThere(v: Volume, d: Disk, cat: Catalog, dir: Dir, name: Name, slots: seq<Slot>, at: nat)
    requires var had := Slots(DirBlocks(v, d, cat, dir));
             at <= |had| <= |slots| && had == slots[..|had|] && IsChosen(had, EntrySize(name), at)
    ensures IsKept(v, d, cat, dir, name) ==> ReadsBack(name, ScanTo(v.g.fatType, slots, at).long)
  {
    hide Slots, DirBlocks, ScanTo, ReadsBack, IsChosen, EntrySize, NoMatch;
    var had := Slots(DirBlocks(v, d, cat, dir));
    assert had[..at] == slots[..at];
    ScanPrefix(v.g.fatType, had, slots, at);
  }

  /** A volume part way through storing a new entry. */
  lemma AddedState(v: Volume, cat: Catalog, d: Disk, cat': Catalog, mid: Disk, dir: Dir, s: Disk, at: nat, k: nat,
                   name: Name, alias: seq<byte>, attr: byte, x: Extent, stamp: Stamp)
    requires IsReady(v, cat, d, cat', mid) && dir in cat.dirs && CanAdd(v.g.fatType, name, alias, attr, x, stamp)
    requires PointsWell(v, cat, NewEntry(name, attr, x, stamp)) && Unreferenced(v, d, cat, x.first)
    requires var slots := Slots(DirBlocks(v, mid, cat', dir)); var added := NewSlots(name, alias, attr, x, stamp);
             && IsPlace(slots, at, |added|) && at < 16 * k <= |slots|
             && Holds(mid, s, DirSectors(v, cat', dir), Mixed(slots, Patch(slots, at, added), k))
             && (IsKept(v, d, cat, dir, name) ==> ReadsBack(name, ScanTo(v.g.fatType, slots, at).long))
    ensures Intact(v, d, s)
            || Added(v, cat, dir, name, NewEntry(name, attr, x, stamp), IsKept(v, d, cat, dir, name), d, s)
  {
    hide IsReady, CheckName, IsText, PointsWell, Unreferenced, NewSlots, Patch, Slots, DirBlocks, DirSectors, Holds,
      ReadsBack, ScanTo, Mixed, Intact, Added, IsKept, AllFree, IsEnd, NewEntry;
    NoZeros(name);
    var slots, added := Slots(DirBlocks(v, mid, cat', dir)), NewSlots(name, alias, attr, x, stamp);
    AddMixed(slots, at, added, k);
    if 16 * k < at + |added| {
      AddedPart(v, cat, d, cat', mid, dir, s, at, k, name, alias, attr, x, stamp);
    } else {
      AddedWhole(v, cat, d, cat', mid, dir, s, at, name, alias, attr, x, stamp);
    }
  }

  /** Everything seen while storing a new entry. */
  lemma SeenStored(v: Volume, cat: Catalog, d: Disk, cat': Catalog, mid: Disk, dir: Dir, at: nat, name: Name,
                   alias: seq<byte>, attr: byte, x: Extent, stamp: Stamp, was: set<Disk>, between: set<Disk>,
                       now: set<Disk>)
    requires IsReady(v, cat, d, cat', mid) && dir in cat.dirs && CanAdd(v.g.fatType, name, alias, attr, x, stamp)
    requires PointsWell(v, cat, NewEntry(name, attr, x, stamp)) && Unreferenced(v, d, cat, x.first)
    requires var slots := Slots(DirBlocks(v, mid, cat', dir)); var added := NewSlots(name, alias, attr, x, stamp);
             && IsPlace(slots, at, |added|) && SeenIntact(v, d, was, between) && between <= now
             && (forall s :: s in now && s !in between ==>
                   exists k :: at < 16 * k <= |slots|
                       && Holds(mid, s, DirSectors(v, cat', dir), Mixed(slots, Patch(slots, at, added), k)))
             && (IsKept(v, d, cat, dir, name) ==> ReadsBack(name, ScanTo(v.g.fatType, slots, at).long))
    ensures SeenAdded(v, cat, dir, name, NewEntry(name, attr, x, stamp), IsKept(v, d, cat, dir, name), d, was, now)
  {
    hide IsReady, CheckName, IsText, PointsWell, Unreferenced, NewSlots, Patch, Slots, DirBlocks, DirSectors, Holds,
      ReadsBack, ScanTo, Mixed, Intact, Added, IsKept, AllFree, IsEnd, NewEntry;
    NoZeros(name);
    var slots, added := Slots(DirBlocks(v, mid, cat', dir)), NewSlots(name, alias, attr, x, stamp);
    forall s | s in now && s !in was && s !in between
      ensures Intact(v, d, s)
              || Added(v, cat, dir, name, NewEntry(name, attr, x, stamp), IsKept(v, d, cat, dir, name), d, s)
    {
      var k :| at < 16 * k <= |slots|
        && Holds(mid, s, DirSectors(v, cat', dir), Mixed(slots, Patch(slots, at, added), k));
      AddedState(v, cat, d, cat', mid, dir, s, at, k, name, alias, attr, x, stamp);
    }
  }
}
