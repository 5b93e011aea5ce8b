/** Making directories, and removing what is in them. */
module FatDirs {
  import opened Bytes
  import opened FatLayout
  import opened FatChains
  import opened FatNames
  import opened FatLongNames
  import opened FatDirectory
  import opened FatDirectoryChanges
  import opened FatNewEntries
  import opened FatTree
  import opened FatWrites
  import opened FatReads
  import opened FatRewrites
  import opened FatUpdates
  import opened FatCatalogs
  import opened FatTables
  import opened FatImages
  import opened FatRuns
  import opened FatSafety
  import opened FatFiles

  /* The contents of a new directory. */

  function Dots(n: nat): (s: seq<byte>)
    ensures |s| == n && forall i :: 0 <= i < n ==> s[i] == 0x2E
  {
    seq(n, i => 0x2E)
  }

  /** The 8.3 name of `.` or `..`. */
  function DotShort(n: nat): (s: seq<byte>)
    requires n <= 8
    ensures |s| == 11
  {
    Dots(n) + Spaces(8 - n) + Spaces(3)
  }

  lemma DotName(s: Slot, n: nat)
    requires 1 <= n <= 2 && Spells(s, DotShort(n), 0)
    ensures ShortName(s) == (if n == 1 then DOT else DOT_DOT) && s[0] == 0x2E
  {
    hide TrimEnd;
    assert s[..8] == s[..11][..8] == Dots(n) + Spaces(8 - n);
    assert s[8..11] == s[..11][8..] == [] + Spaces(3);
    assert s[0] == s[..8][0];
    TrimSpaces(Dots(n), 8 - n);
    TrimSpaces([], 3);
    assert PartName(s[..8], false) == Dots(n);
    assert PartName(s[8..11], false) == [];
  }

  /** `.`, which is directory `c` itself, and `..`, its parent. */
  function DotSlots(c: nat, parent: nat, stamp: Stamp): (slots: seq<Slot>)
    requires Extent(c, 0).Fits(Fat32) && Extent(parent, 0).Fits(Fat32) && stamp.Fits()
    ensures |slots| == 2
  {
    [ShortEntry(DotShort(1), 0, ATTR_DIRECTORY, Extent(c, 0), stamp),
     ShortEntry(DotShort(2), 0, ATTR_DIRECTORY, Extent(parent, 0), stamp)]
  }

  /** Only `.` and `..` are in a new directory, and lookups skip them. */
  lemma DotsAreHidden(t: FatType, c: nat, parent: nat, stamp: Stamp, n: nat)
    requires Extent(c, 0).Fits(t) && Extent(parent, 0).Fits(t) && stamp.Fits()
    ensures Entries(t, DotSlots(c, parent, stamp) + EndSlots(n)) == [] && Tidy(DotSlots(c, parent, stamp) + EndSlots(n))
  {
    hide ShortEntry, ShortName, DotShort, ScanTo, EndSlots, Found, IsEnd;
    var two := DotSlots(c, parent, stamp);
    ShortEntryHolds(t, DotShort(1), 0, ATTR_DIRECTORY, Extent(c, 0), stamp, DOT);
    ShortEntryHolds(t, DotShort(2), 0, ATTR_DIRECTORY, Extent(parent, 0), stamp, DOT);
    DotName(two[0], 1);
    DotName(two[1], 2);
    ShortIsPlain(two[0]);
    ShortIsPlain(two[1]);
    NothingRead(t, two);
    DotRead(t, two, 0);
    DotRead(t, two, 1);
    ZeroIsEnd();
    GrownEntries(t, two, EndSlots(n));
  }

  lemma ZeroIsEnd()
    ensures IsEnd(ZERO_SLOT)
  {
  }

  lemma DotRead(t: FatType, slots: seq<Slot>, k: nat)
    requires k < |slots| && ScanTo(t, slots, k) == START && IsPlain(slots[k]) && IsDots(ShortName(slots[k]))
    ensures ScanTo(t, slots, k + 1) == START
  {
  }

  lemma SlicePrefix(a: seq<byte>, b: seq<byte>, lo: nat, hi: nat)
    requires lo <= hi <= |a| <= |b| && b[..|a|] == a
    ensures b[lo..hi] == a[lo..hi]
  {
    assert forall i :: 0 <= i < |a| ==> b[..|a|][i] == b[i];
    assert forall i :: lo <= i < hi ==> a[i] == b[i];
  }

  lemma ZeroSlice(b: seq<byte>, lo: nat)
    requires lo + 32 <= |b| && forall i :: lo <= i < lo + 32 ==> b[i] == 0
    ensures b[lo..lo + 32] == ZERO_SLOT
  {
  }

  lemma PaddedSlot(slots: seq<Slot>, n: nat, k: nat)
    requires 32 * |slots| <= n && 32 * k + 32 <= n
    ensures Pad(Join(slots), n)[32 * k..32 * k + 32] == if k < |slots| then slots[k] else ZERO_SLOT
  {
    hide Join, Pad;
    var bytes := Pad(Join(slots), n);
    if k < |slots| {
      JoinAt(slots, k);
      SlicePrefix(Join(slots), bytes, 32 * k, 32 * k + 32);
    } else {
      ZeroSlice(bytes, 32 * k);
    }
  }

  lemma BytesSlotAt(bytes: seq<byte>, k: nat)
    requires |bytes| % BLOCK_SIZE == 0 && k < |bytes| / 32
    ensures BytesSlots(bytes)[k] == bytes[32 * k..32 * k + 32]
  {
  }

  lemma PaddedSlots(slots: seq<Slot>, n: nat)
    requires 32 * |slots| <= n && n % BLOCK_SIZE == 0
    ensures BytesSlots(Pad(Join(slots), n)) == slots + EndSlots(n / 32 - |slots|)
  {
    hide Join, EndSlots, Pad, BytesSlots;
    var unused := EndSlots(n / 32 - |slots|);
    var was, now := BytesSlots(Pad(Join(slots), n)), slots + unused;
    forall k | 0 <= k < |was| ensures was[k] == now[k] {
      BytesSlotAt(Pad(Join(slots), n), k);
      PaddedSlot(slots, n, k);
      assert k >= |slots| ==> now[k] == unused[k - |slots|];
    }
  }

  lemma PutSize(g: Geometry, cs: seq<nat>)
    requires AllFrom2(cs)
    ensures |cs| * g.ClusterSize() == |Sectors(g, cs)| * BLOCK_SIZE
  {
  }

  /** The blocks of a chain written to. */
  lemma PutContents(g: Geometry, d: Disk, d': Disk, cs: seq<nat>, data: seq<byte>) returns (blocks: seq<Block>)
    requires IsPut(g, d, d', cs, data)
    ensures AllFrom2(cs) && blocks == Blocks(d', Sectors(g, cs))
    ensures |data| <= |blocks| * BLOCK_SIZE && blocks == Chop(Pad(data, |blocks| * BLOCK_SIZE))
  {
    hide Sectors, FreeSet, Only, IsChain, Chop, Pad, Blocks;
    PutSize(g, cs);
    blocks := Blocks(d', Sectors(g, cs));
  }

  /** Slots written as bytes read back as slots, with unused ones after them. */
  lemma PutBlocks(blocks: seq<Block>, slots: seq<Slot>)
    requires 32 * |slots| <= |blocks| * BLOCK_SIZE && blocks == Chop(Pad(Join(slots), |blocks| * BLOCK_SIZE))
    ensures Slots(blocks) == slots + EndSlots(16 * |blocks| - |slots|)
  {
    hide Flatten, Chop, Slots, Join, Pad, BytesSlots, EndSlots;
    var n := |blocks| * BLOCK_SIZE;
    var bytes := Pad(Join(slots), n);
    FlattenChop(bytes);
    FlattenSlots(blocks);
    PaddedSlots(slots, n);
  }

  /* A directory made. */

  /** `name` in `dir` is a new, empty directory; all else is as in `d`. */
  ghost predicate DirMade(v: Volume, dir: Dir, name: Name, d: Disk, s: Disk) {
    && IntactBut(v, dir, {v.fold(name)}, d, s)
    && forall path :: Resolve(v, d, Root, path) == Ok(dir) ==> ReadDir(v, s, path + [name]) == Ok([])
  }

  /** A name that shows an empty directory has been made one. */
  lemma ShownIsMade(v: Volume, cat: Catalog, dir: Dir, name: Name, e: DirEntry, d: Disk, s: Disk)
    requires WellFormed(v, d, cat) && Shows(v, cat, dir, name, e, d, s) && Consistent(v, s)
             && ReadBlock(s, 0) == ReadBlock(d, 0)
    requires e.kind == Directory && e.first != 0 && Sub(e.first) in cat.dirs && Sub(e.first) != dir
             && ListDir(v, d, Sub(e.first)) == Ok([])
    ensures DirMade(v, dir, name, d, s)
  {
    hide WellFormed, Resolve, ListDir, SameElsewhere, Consistent, SameFiles, Lookup;
    forall path | Resolve(v, d, Root, path) == Ok(dir)
      ensures ReadDir(v, s, path + [name]) == Ok([])
    {
      ResolveAppend(v, s, Root, path, name);
    }
  }

  lemma AlikeThenMade(v: Volume, cat: Catalog, dir: Dir, name: Name, d: Disk, d': Disk, s: Disk)
    requires WellFormed(v, d, cat) && Alike(v, cat, d, d') && ReadBlock(d', 0) == ReadBlock(d, 0)
             && DirMade(v, dir, name, d', s)
    ensures DirMade(v, dir, name, d, s)
  {
    hide WellFormed, Alike, Resolve, ReadFile, ReadDir, SameElsewhere, Consistent;
    AlikeThenElsewhere(v, cat, Some(Place(dir, {v.fold(name)})), d, d', s);
    AlikeReads(v, cat, d, d');
  }

  /** Why making a directory is refused before anything is changed. */
  function CreateRefused(v: Volume, d: Disk, path: seq<Name>, name: Name): Option<FatError> {
    if !CheckName(name) then Some(InvalidName)
    else
      var dir := Resolve(v, d, Root, path);
      if dir.Err? then Some(dir.error)
      else if Lookup(v, d, dir.value, name).Ok? then Some(AlreadyExists)
      else None
  }

  /** What a new directory fails for, once nothing else speaks against it. */
  ghost function MakeFails(v: Volume, d: Disk, cat: Catalog, dir: Dir, name: Name): Option<FatError> {
    var free := |FreeSet(v.g, d)|;
    if free < 1 then Some(NoSpace)
    else AddFails(v.g, HomeOf(v, dir), Slots(DirBlocks(v, d, cat, dir)), EntrySize(name), free - 1)
  }

  /** How many clusters it takes. */
  ghost function MakeTaken(v: Volume, d: Disk, cat: Catalog, dir: Dir, name: Name): nat {
    1 + GrowthFor(v.g, Slots(DirBlocks(v, d, cat, dir)), EntrySize(name))
  }

  /** All that making a directory fails for. */
  ghost function CreateFails(v: Volume, d: Disk, cat: Catalog, path: seq<Name>, name: Name): Option<FatError> {
    var refused := CreateRefused(v, d, path, name);
    if refused.Some? then refused else MakeFails(v, d, cat, Resolve(v, d, Root, path).value, name)
  }

  /** The catalog with cluster `c` a new directory. */
  ghost function WithNewDir(cat: Catalog, c: nat): Catalog { WithDir(WithChain(cat, [c]), c) }

  /** The new directory before anything points at it. */
  lemma NewDirReady(v: Volume, cat: Catalog, d: Disk, d1: Disk, c: nat, parent: nat, stamp: Stamp)
    requires WellFormed(v, d, cat) && Extent(c, 0).Fits(v.g.fatType) && Extent(parent, 0).Fits(v.g.fatType)
             && stamp.Fits()
    requires IsPut(v.g, d, d1, [c], Join(DotSlots(c, parent, stamp)))
    ensures var cat1 := WithNewDir(cat, c);
            && WellFormed(v, d1, cat1) && Unreferenced(v, d1, cat1, c) && Alike(v, cat, d, d1) && Intact(v, d, d1)
               && NoneOwned(cat, {c})
            && c != 0 && Sub(c) !in cat.dirs && ListDir(v, d1, Sub(c)) == Ok([])
            && (forall dir ::
                  dir in cat.dirs ==>
                    DirSectors(v, cat1, dir) == DirSectors(v, cat, dir)
                      && DirBlocks(v, d1, cat1, dir) == DirBlocks(v, d, cat, dir))
  {
    hide WellFormed, FreeSet, Only, NoneOwned, Alike, Intact, DirBlocks, DirSectors, Unreferenced, SameDirs, Sectors,
      DotSlots, Join, Chop, Pad, Blocks, ListDir, DirEntries, Tidy, Slots, IsFileChain;
    var cs := [c];
    assert Elements(cs) == {c};
    FreeNotOwned(v, d, cat, Elements(cs));
    UnownedWrites(v, cat, Elements(cs), Elements(cs), d, d1);
    AddChain(v, d1, cat, cs);
    NewIsFile(v, d1, cat, cs);
    FileIsNoDir(v, WithChain(cat, cs), c);
    NewDirsSame(v, d1, cat, cs);
    NewDirEmpty(v, cat, d, d1, c, parent, stamp);
    var cat0 := WithChain(cat, cs);
    AddDir(v, d1, cat0, c);
    NewDirLists(v, cat0, d1, c);
    AddedDirSame(v, d1, cat0, c);
  }

  lemma FileIsNoDir(v: Volume, cat: Catalog, h: nat)
    requires IsFileChain(v, cat, h)
    ensures Sub(h) !in cat.dirs
  {
  }

  lemma NewDirEmpty(v: Volume, cat: Catalog, d: Disk, d1: Disk, c: nat, parent: nat, stamp: Stamp)
    requires Extent(c, 0).Fits(v.g.fatType) && Extent(parent, 0).Fits(v.g.fatType) && stamp.Fits()
    requires IsPut(v.g, d, d1, [c], Join(DotSlots(c, parent, stamp)))
    ensures DirEntries(v, d1, WithChain(cat, [c]), Sub(c)) == []
            && Tidy(Slots(DirBlocks(v, d1, WithChain(cat, [c]), Sub(c))))
  {
    hide FreeSet, Only, IsChain, Sectors, DotSlots, Join, Chop, Pad, Blocks, Tidy, Slots, Entries;
    var blocks := PutContents(v.g, d, d1, [c], Join(DotSlots(c, parent, stamp)));
    PutBlocks(blocks, DotSlots(c, parent, stamp));
    DotsAreHidden(v.g.fatType, c, parent, stamp, 16 * |blocks| - 2);
  }

  lemma NewDirLists(v: Volume, cat0: Catalog, d1: Disk, c: nat)
    requires WellFormed(v, d1, WithDir(cat0, c)) && DirEntries(v, d1, cat0, Sub(c)) == []
    ensures ListDir(v, d1, Sub(c)) == Ok([]) && c != 0
  {
    hide EntriesPointWell, EntriesApart, DirsTidy, ListDir, EntriesIn, Sectors;
    var cat1 := WithDir(cat0, c);
    WellFormedIsLaid(v, d1, cat1);
    ListsDir(v, d1, cat1, Sub(c));
    assert HomeOf(v, Sub(c)) == Some(c);
    ChainFrom2(v, d1, cat1, c);
  }

  lemma AddedDirSame(v: Volume, d: Disk, cat: Catalog, c: nat)
    ensures forall dir :: dir in cat.dirs ==> DirSectors(v, WithDir(cat, c), dir) == DirSectors(v, cat, dir)
    ensures forall dir :: dir in cat.dirs ==> DirBlocks(v, d, WithDir(cat, c), dir) == DirBlocks(v, d, cat, dir)
  {
  }

  /** Every state is as before, or as before but at one name; if the name is `kept`, that is it and the directory is
      made. */
  ghost predicate SeenMade(v: Volume, dir: Dir, name: Name, kept: bool, d: Disk, was: set<Disk>, now: set<Disk>) {
    was <= now && forall s :: s in now && s !in was ==>
        Intact(v, d, s) || (IntactButOne(v, dir, d, s) && (kept ==> DirMade(v, dir, name, d, s)))
  }

  lemma AddedIsMade(v: Volume, cat: Catalog, d: Disk, cat1: Catalog, d1: Disk, dir: Dir, name: Name, c: nat,
                    stamp: Stamp, s: Disk)
    requires WellFormed(v, d, cat) && WellFormed(v, d1, cat1) && Alike(v, cat, d, d1) && Intact(v, d, d1)
             && dir in cat.dirs
    requires DirBlocks(v, d1, cat1, dir) == DirBlocks(v, d, cat, dir)
    requires c != 0 && Sub(c) in cat1.dirs && Sub(c) !in cat.dirs && ListDir(v, d1, Sub(c)) == Ok([])
    requires Added(v, cat1, dir, name, NewEntry(name, ATTR_DIRECTORY, Extent(c, 0), stamp),
                   IsKept(v, d1, cat1, dir, name), d1, s)
    ensures IntactButOne(v, dir, d, s) && (IsKept(v, d, cat, dir, name) ==> DirMade(v, dir, name, d, s))
  {
    hide WellFormed, Alike, Consistent, SameReads, DirBlocks, IsKept, Shows, DirMade, ListDir, ReadBlock, IntactButOne;
    KeptSame(v, d, cat, d1, cat1, dir, name);
    AlikeThenButOne(v, cat, dir, d, d1, s);
    if IsKept(v, d, cat, dir, name) {
      ShownIsMade(v, cat1, dir, name, NewEntry(name, ATTR_DIRECTORY, Extent(c, 0), stamp), d1, s);
      AlikeThenMade(v, cat, dir, name, d, d1, s);
    }
  }

  lemma SeenDirAdded(v: Volume, cat: Catalog, d: Disk, cat1: Catalog, d1: Disk, dir: Dir, name: Name, c: nat,
                     stamp: Stamp, was: set<Disk>, mid: set<Disk>, now: set<Disk>)
    requires WellFormed(v, d, cat) && WellFormed(v, d1, cat1) && Alike(v, cat, d, d1) && Intact(v, d, d1)
             && dir in cat.dirs
    requires DirBlocks(v, d1, cat1, dir) == DirBlocks(v, d, cat, dir)
    requires c != 0 && Sub(c) in cat1.dirs && Sub(c) !in cat.dirs && ListDir(v, d1, Sub(c)) == Ok([])
    requires SeenIntact(v, d, was, mid)
    requires SeenAdded(v, cat1, dir, name, NewEntry(name, ATTR_DIRECTORY, Extent(c, 0), stamp),
                       IsKept(v, d1, cat1, dir, name), d1, mid, now)
    ensures SeenMade(v, dir, name, IsKept(v, d, cat, dir, name), d, was, now)
  {
    hide WellFormed, Alike, Consistent, SameReads, DirBlocks, IsKept, Added, DirMade, ListDir, NewEntry, ReadBlock,
      IntactButOne;
    forall s | s in now && s !in was
      ensures Intact(v, d, s)
              || (IntactButOne(v, dir, d, s) && (IsKept(v, d, cat, dir, name) ==> DirMade(v, dir, name, d, s)))
    {
      if s !in mid {
        if Intact(v, d1, s) {
          AlikeIntact(v, cat, d, d1, s);
        } else {
          AddedIsMade(v, cat, d, cat1, d1, dir, name, c, stamp, s);
        }
      }
    }
  }

  lemma MadeThenIntact(v: Volume, dir: Dir, name: Name, d: Disk, d': Disk, s: Disk)
    requires DirMade(v, dir, name, d, d') && Intact(v, d', s)
    ensures DirMade(v, dir, name, d, s)
  {
    hide Resolve, ReadFile, ReadDir, SameElsewhere, Consistent, ReadBlock;
    ButThenIntact(v, dir, {v.fold(name)}, d, d', s);
    forall path | Resolve(v, d, Root, path) == Ok(dir) ensures ReadDir(v, s, path + [name]) == Ok([]) {
      assert ReadDir(v, d', path + [name]) == ReadDir(v, s, path + [name]);
    }
  }

  lemma SeenMadeThenIntact(v: Volume, dir: Dir, name: Name, kept: bool, d: Disk, d': Disk, was: set<Disk>,
                           mid: set<Disk>, now: set<Disk>, end: Disk)
    requires SeenMade(v, dir, name, kept, d, was, mid) && IntactButOne(v, dir, d, d')
             && (kept ==> DirMade(v, dir, name, d, d'))
    requires SeenIntact(v, d', mid, now) && Intact(v, d', end)
    ensures SeenMade(v, dir, name, kept, d, was, now) && IntactButOne(v, dir, d, end)
            && (kept ==> DirMade(v, dir, name, d, end))
  {
    hide DirMade, SameReads, Consistent, ReadBlock, IntactButOne;
    forall s | s == end || (s in now && s !in mid)
      ensures IntactButOne(v, dir, d, s) && (kept ==> DirMade(v, dir, name, d, s))
    {
      ButOneThenIntact(v, dir, d, d', s);
      if kept {
        MadeThenIntact(v, dir, name, d, d', s);
      }
    }
  }
}
