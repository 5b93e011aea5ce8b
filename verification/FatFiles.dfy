/** Writing a file: what the volume reads as in each state the device goes through. */
module FatFiles {
  import opened Bytes
  import opened FatLayout
  import opened FatChains
  import opened FatNames
  import opened FatDirectory
  import opened FatDirectoryChanges
  import opened FatNewEntries
  import opened FatTree
  import opened FatWrites
  import opened FatReads
  import opened FatRewrites
  import opened FatUpdates
  import opened FatCatalogs
  import opened FatTables
  import opened FatImages
  import opened FatRuns
  import opened FatSafety

  /** `name` in `dir` now reads as `bytes`; all else is as in `d`. */
  ghost predicate NowReads(v: Volume, dir: Dir, name: Name, bytes: Result<seq<byte>>, d: Disk, s: Disk) {
    && IntactBut(v, dir, {v.fold(name)}, d, s)
    && forall path :: Resolve(v, d, Root, path) == Ok(dir) ==> ReadFile(v, s, path, name) == bytes
  }

  /** Every state is as before, or as before but at one name; if the file's name is `kept`, that is it and the file is
      written. */
  ghost predicate SeenWritten(v: Volume, dir: Dir, name: Name, bytes: Result<seq<byte>>, kept: bool, d: Disk,
                              was: set<Disk>, now: set<Disk>)
  {
    was <= now && forall s :: s in now && s !in was ==>
        Intact(v, d, s) || (IntactButOne(v, dir, d, s) && (kept ==> NowReads(v, dir, name, bytes, d, s)))
  }

  lemma ShownIsRead(v: Volume, cat: Catalog, dir: Dir, name: Name, e: DirEntry, d: Disk, s: Disk)
    requires WellFormed(v, d, cat) && Shows(v, cat, dir, name, e, d, s) && Consistent(v, s)
             && ReadBlock(s, 0) == ReadBlock(d, 0)
    requires e.kind == File && (e.first == 0 || IsFileChain(v, cat, e.first))
    ensures NowReads(v, dir, name, FileBytes(v.g, d, e.first, e.size), d, s)
  {
    hide WellFormed, Resolve, ReadFile, FileBytes, SameElsewhere, IsFileChain, Consistent, SameFiles, Lookup, SameLists;
    forall path | Resolve(v, d, Root, path) == Ok(dir)
      ensures ReadFile(v, s, path, name) == FileBytes(v.g, d, e.first, e.size)
    {
      ShownReads(v, cat, dir, name, e, d, s, path);
    }
  }

  /** A state intact since the file was written. */
  lemma NowThenIntact(v: Volume, dir: Dir, name: Name, bytes: Result<seq<byte>>, d: Disk, d': Disk, s: Disk)
    requires NowReads(v, dir, name, bytes, d, d') && Intact(v, d', s)
    ensures NowReads(v, dir, name, bytes, d, s)
  {
    hide Resolve, ReadFile, ReadDir, SameElsewhere, Consistent, ReadBlock;
    ButThenIntact(v, dir, {v.fold(name)}, d, d', s);
    forall path | Resolve(v, d, Root, path) == Ok(dir) ensures ReadFile(v, s, path, name) == bytes {
      assert ReadFile(v, d', path, name) == ReadFile(v, s, path, name);
    }
  }

  /** The file written to a state like the one before. */
  lemma AlikeThenNow(v: Volume, cat: Catalog, dir: Dir, name: Name, bytes: Result<seq<byte>>, d: Disk, d': Disk,
                     s: Disk)
    requires WellFormed(v, d, cat) && Alike(v, cat, d, d') && ReadBlock(d', 0) == ReadBlock(d, 0)
             && NowReads(v, dir, name, bytes, d', s)
    ensures NowReads(v, dir, name, bytes, d, s)
  {
    hide WellFormed, Alike, Resolve, ReadFile, SameElsewhere, Consistent;
    AlikeThenElsewhere(v, cat, Some(Place(dir, {v.fold(name)})), d, d', s);
    AlikeReads(v, cat, d, d');
  }

  /* The new chain. */

  ghost function WithNew(cat: Catalog, ch: seq<nat>): Catalog { if ch == [] then cat else WithChain(cat, ch) }

  /** Before anything points at the new chain. */
  ghost predicate ChainReady(v: Volume, cat: Catalog, d: Disk, first: nat, cat1: Catalog, d1: Disk) {
    && WellFormed(v, d, cat) && WellFormed(v, d1, cat1) && Alike(v, cat, d, d1) && Intact(v, d, d1)
    && (first == 0 || IsFileChain(v, cat1, first)) && Unreferenced(v, d1, cat1, first)
    && cat1.dirs == cat.dirs
    && (forall dir ::
          dir in cat.dirs ==>
            DirSectors(v, cat1, dir) == DirSectors(v, cat, dir)
              && DirBlocks(v, d1, cat1, dir) == DirBlocks(v, d, cat, dir))
  }

  lemma NewChainReady(v: Volume, cat: Catalog, d: Disk, d1: Disk, first: nat, ch: seq<nat>, data: seq<byte>)
    requires WellFormed(v, d, cat) && IsNewChain(v.g, d, d1, first, ch, data)
    ensures ChainReady(v, cat, d, first, WithNew(cat, ch), d1) && NoneOwned(cat, Elements(ch))
    ensures first <= v.g.fatType.Mask()
  {
    hide WellFormed, FreeSet, Only, FileBytes, NoneOwned, Alike, Intact, DirBlocks, DirSectors, Unreferenced, SameDirs;
    FreeNotOwned(v, d, cat, Elements(ch));
    UnownedWrites(v, cat, Elements(ch), Elements(ch), d, d1);
    if ch != [] {
      AddChain(v, d1, cat, ch);
      NewIsFile(v, d1, cat, ch);
      NewDirsSame(v, d1, cat, ch);
      SoundVolume(v, d, cat);
      ClustersAreNoMarkers(v.g, ch[0]);
    } else {
      ZeroUnreferenced(v, d1, cat);
    }
  }

  lemma ZeroUnreferenced(v: Volume, d: Disk, cat: Catalog)
    ensures Unreferenced(v, d, cat, 0)
  {
  }

  lemma NewIsFile(v: Volume, d: Disk, cat: Catalog, ch: seq<nat>)
    requires WellFormed(v, d, cat) && ch != [] && ch[0] !in cat.chains
    ensures IsFileChain(v, WithChain(cat, ch), ch[0])
  {
  }

  lemma NewDirsSame(v: Volume, d: Disk, cat: Catalog, ch: seq<nat>)
    requires WellFormed(v, d, cat) && ch != [] && ch[0] !in cat.chains
    ensures forall dir :: dir in cat.dirs ==> DirSectors(v, WithChain(cat, ch), dir) == DirSectors(v, cat, dir)
    ensures forall dir :: dir in cat.dirs ==> DirBlocks(v, d, WithChain(cat, ch), dir) == DirBlocks(v, d, cat, dir)
  {
    hide EntriesPointWell, EntriesApart, DirsTidy, ChainsEnd, ChainsApart, Sectors, RegionSectors;
    forall dir | dir in cat.dirs ensures DirSectors(v, WithChain(cat, ch), dir) == DirSectors(v, cat, dir) {
      assert HomeOf(v, dir).Some? ==> HomeOf(v, dir).value in cat.chains;
    }
  }

  /* The old chain. */

  /** A chain nothing points at any more, freed step by step. */
  lemma FreedIntact(v: Volume, cat: Catalog, h: nat, d: Disk, s: Disk)
    requires WellFormed(v, d, cat) && IsFileChain(v, cat, h) && Unreferenced(v, d, cat, h)
             && Only(v.g, Elements(cat.chains[h]), {}, d, s)
    ensures Intact(v, d, s)
  {
    hide WellFormed, Unreferenced, Only, NoneOwned, Intact, Alike, SameDirs, DirBlocks;
    DropChain(v, d, cat, h);
    NoneIsOwned(WithoutChain(cat, h));
    UnownedWrites(v, WithoutChain(cat, h), Elements(cat.chains[h]), {}, d, s);
  }

  lemma NoneIsOwned(cat: Catalog)
    ensures NoneOwned(cat, {})
  {
  }

  /** The clusters of the chain at `first`, if there is one. */
  ghost function ChainOf(cat: Catalog, first: nat): set<nat> {
    if first != 0 && first in cat.chains then Elements(cat.chains[first]) else {}
  }

  /** What freeing the chain at `first` may change. */
  ghost function FreeScope(cat: Catalog, first: nat, d: Disk): Scope { Scope(ChainOf(cat, first), {}, d) }

  /** Freeing a chain nothing points at any more, or none, leaves everything intact. */
  lemma SeenFreed(v: Volume, cat: Catalog, first: nat, d: Disk, was: set<Disk>, now: set<Disk>, end: Disk)
    requires WellFormed(v, d, cat) && (first == 0 || (IsFileChain(v, cat, first) && Unreferenced(v, d, cat, first)))
    requires SeenWithin(v.g, FreeScope(cat, first, d), was, now) && Within(v.g, FreeScope(cat, first, d), end)
    ensures SeenIntact(v, d, was, now) && Intact(v, d, end)
  {
    hide WellFormed, Unreferenced, Only, Intact, IsFileChain, NoneOwned;
    forall s | s == end || (s in now && s !in was) ensures Intact(v, d, s) {
      if first == 0 {
        NoneIsOwned(cat);
        UnownedWrites(v, cat, {}, {}, d, s);
      } else {
        FileIsThere(v, cat, first);
        FreedIntact(v, cat, first, d, s);
      }
    }
  }

  lemma FollowsOn(v: Volume, cat: Catalog, d: Disk, first: nat)
    requires WellFormed(v, d, cat)
    ensures first != 0 && first in cat.chains ==> Walk(v.g, d, Some(first), [], None) == Ok(cat.chains[first])
  {
    hide EntriesPointWell, EntriesApart, DirsTidy, Walk;
    if first != 0 && first in cat.chains {
      ChainFrom2(v, d, cat, first);
      WalkFindsChain(v.g, d, cat.chains[first], 0);
      assert cat.chains[first][..0] == [];
    }
  }

  /** What an entry points at, and how following it goes. */
  lemma TargetChain(v: Volume, d: Disk, cat: Catalog, dir: Dir, m: nat)
    requires WellFormed(v, d, cat) && dir in cat.dirs && m < |DirEntries(v, d, cat, dir)|
    ensures var e := DirEntries(v, d, cat, dir)[m].entry;
            && PointsWell(v, cat, e)
            && (e.first == 0 || e.kind == Directory || IsFileChain(v, cat, e.first))
            && (e.kind == Directory ==> Sub(e.first) in cat.dirs && e.first != 0 && e.first in cat.chains)
            && (e.first != 0 ==> e.first in cat.chains)
  {
    hide EntriesApart, DirsTidy, DirEntries;
    var e := DirEntries(v, d, cat, dir)[m].entry;
    assert PointsWell(v, cat, e);
    if e.kind == Directory {
      assert HomeOf(v, Sub(e.first)) == Some(e.first);
      ChainFrom2(v, d, cat, e.first);
    }
  }

  /* Replacing. */

  ghost predicate SeenNow(v: Volume, dir: Dir, name: Name, bytes: Result<seq<byte>>, d: Disk, was: set<Disk>,
                          now: set<Disk>)
  {
    was <= now && forall s :: s in now && s !in was ==> NowReads(v, dir, name, bytes, d, s)
  }

  /** What it takes to point the file `name` finds in `dir` at another chain. */
  ghost predicate CanReplace(v: Volume, d: Disk, cat: Catalog, dir: Dir, name: Name, m: nat, x: Extent) {
    && WellFormed(v, d, cat) && dir in cat.dirs && x.Fits(v.g.fatType)
    && m < |DirEntries(v, d, cat, dir)| && Find(v, DirEntries(v, d, cat, dir), name) == m
       && DirEntries(v, d, cat, dir)[m].entry.kind == File
    && (x.first == 0 || IsFileChain(v, cat, x.first)) && Unreferenced(v, d, cat, x.first)
  }

  /** Storing the entry once it points at the new chain. */
  lemma ReplacedState(v: Volume, d: Disk, cat: Catalog, dir: Dir, name: Name, m: nat, p: nat, x: Extent, stamp: Stamp,
                      s: Disk)
    requires CanReplace(v, d, cat, dir, name, m, x) && stamp.Fits() && DirEntries(v, d, cat, dir)[m].hi == p + 1
             && p < |Slots(DirBlocks(v, d, cat, dir))|
    requires Holds(d, s, DirSectors(v, cat, dir), ReplacedSlots(Slots(DirBlocks(v, d, cat, dir)), p, x, stamp))
    ensures NowReads(v, dir, name, FileBytes(v.g, d, x.first, x.size), d, s)
    ensures WellFormed(v, s, cat) && Unreferenced(v, s, cat, DirEntries(v, d, cat, dir)[m].entry.first)
  {
    hide WellFormed, DirEntries, Find, IsFileChain, Unreferenced, Holds, Slots, DirBlocks, DirSectors, ReplacedSlots,
      NowReads, FileBytes, Shows, Consistent;
    ReplaceStored(v, cat, dir, d, s, name, m, p, x, stamp);
    IsConsistent(v, s, cat);
    ShownIsRead(v, cat, dir, name,
                DirEntry(DirEntries(v, d, cat, dir)[m].entry.name, File, x.size, stamp.date, stamp.time, x.first), d,
                    s);
  }

  lemma SeenReplaced(v: Volume, d: Disk, cat: Catalog, dir: Dir, name: Name, m: nat, p: nat, x: Extent, stamp: Stamp,
                     was: set<Disk>, now: set<Disk>)
    requires CanReplace(v, d, cat, dir, name, m, x) && stamp.Fits() && DirEntries(v, d, cat, dir)[m].hi == p + 1
    requires var slots := Slots(DirBlocks(v, d, cat, dir));
             && p < |slots| && was <= now
             && forall s :: s in now && s !in was ==>
                  exists k :: p < 16 * k <= |slots|
                      && Holds(d, s, DirSectors(v, cat, dir), Mixed(slots, ReplacedSlots(slots, p, x, stamp), k))
    ensures SeenNow(v, dir, name, FileBytes(v.g, d, x.first, x.size), d, was, now)
  {
    hide WellFormed, DirEntries, Find, IsFileChain, Unreferenced, Holds, Slots, DirBlocks, DirSectors, NowReads,
      FileBytes, Mixed, SetModified, SetExtent;
    var slots := Slots(DirBlocks(v, d, cat, dir));
    forall s | s in now && s !in was ensures NowReads(v, dir, name, FileBytes(v.g, d, x.first, x.size), d, s) {
      var k :| p < 16 * k <= |slots|
        && Holds(d, s, DirSectors(v, cat, dir), Mixed(slots, ReplacedSlots(slots, p, x, stamp), k));
      assert Mixed(slots, ReplacedSlots(slots, p, x, stamp), k) == ReplacedSlots(slots, p, x, stamp);
      ReplacedState(v, d, cat, dir, name, m, p, x, stamp, s);
    }
  }

  lemma SeenNowThenIntact(v: Volume, dir: Dir, name: Name, bytes: Result<seq<byte>>, d: Disk, d': Disk, was: set<Disk>,
                          mid: set<Disk>, now: set<Disk>)
    requires SeenNow(v, dir, name, bytes, d, was, mid) && NowReads(v, dir, name, bytes, d, d')
             && SeenIntact(v, d', mid, now)
    ensures SeenNow(v, dir, name, bytes, d, was, now)
  {
    hide NowReads, Intact;
    forall s | s in now && s !in was ensures NowReads(v, dir, name, bytes, d, s) {
      if s !in mid {
        NowThenIntact(v, dir, name, bytes, d, d', s);
      }
    }
  }

  /** Where an entry's own slot is. */
  lemma EntrySlot(v: Volume, d: Disk, cat: Catalog, dir: Dir, m: nat)
    requires m < |DirEntries(v, d, cat, dir)|
    ensures var e := DirEntries(v, d, cat, dir)[m]; e.lo < e.hi <= |Slots(DirBlocks(v, d, cat, dir))|
  {
    hide ScanTo, Slots, DirBlocks;
    var slots := Slots(DirBlocks(v, d, cat, dir));
    EntryBounds(v.g.fatType, slots, |slots|, m);
  }

  /* Creating. */

  /** Giving back a chain that nothing came to point at. */
  lemma GivenBack(v: Volume, cat: Catalog, d: Disk, cs: set<nat>, was: set<Disk>, now: set<Disk>, end: Disk)
    requires WellFormed(v, d, cat) && NoneOwned(cat, cs) && SeenWithin(v.g, Scope(cs, cs, d), was, now)
             && Within(v.g, Scope(cs, cs, d), end)
    ensures SeenIntact(v, d, was, now) && Intact(v, d, end)
  {
    hide WellFormed, NoneOwned, Only, Intact, SeenIntact, SeenWithin;
    SeenUnowned(v, cat, Scope(cs, cs, d), was, now);
    UnownedWrites(v, cat, cs, cs, d, end);
  }

  /** The name is new to the directory and its entry will read back, whichever of two like catalogs
      and states it is looked up in. */
  lemma KeptSame(v: Volume, d: Disk, cat: Catalog, d': Disk, cat': Catalog, dir: Dir, name: Name)
    requires DirBlocks(v, d, cat, dir) == DirBlocks(v, d', cat', dir)
    ensures IsKept(v, d, cat, dir, name) == IsKept(v, d', cat', dir, name)
  {
  }

  /** A new file's entry, once added, reads as the file. */
  lemma AddedIsRead(v: Volume, cat: Catalog, d: Disk, cat1: Catalog, d1: Disk, dir: Dir, name: Name, x: Extent,
                    stamp: Stamp, s: Disk)
    requires ChainReady(v, cat, d, x.first, cat1, d1) && dir in cat.dirs
    requires Added(v, cat1, dir, name, NewEntry(name, ATTR_ARCHIVE, x, stamp), IsKept(v, d1, cat1, dir, name), d1, s)
    ensures IntactButOne(v, dir, d, s)
            && (IsKept(v, d, cat, dir, name) ==> NowReads(v, dir, name, FileBytes(v.g, d1, x.first, x.size), d, s))
  {
    hide WellFormed, Alike, Consistent, SameReads, IsFileChain, Unreferenced, DirSectors, DirBlocks, IsKept, Shows,
      NowReads, FileBytes, ReadBlock, IntactButOne;
    KeptSame(v, d, cat, d1, cat1, dir, name);
    AlikeThenButOne(v, cat, dir, d, d1, s);
    if IsKept(v, d, cat, dir, name) {
      ShownIsRead(v, cat1, dir, name, NewEntry(name, ATTR_ARCHIVE, x, stamp), d1, s);
      AlikeThenNow(v, cat, dir, name, FileBytes(v.g, d1, x.first, x.size), d, d1, s);
    }
  }

  lemma SeenCreated(v: Volume, cat: Catalog, d: Disk, cat1: Catalog, d1: Disk, dir: Dir, name: Name, x: Extent,
                    stamp: Stamp, was: set<Disk>, mid: set<Disk>, now: set<Disk>)
    requires ChainReady(v, cat, d, x.first, cat1, d1) && dir in cat.dirs && SeenIntact(v, d, was, mid)
    requires SeenAdded(v, cat1, dir, name, NewEntry(name, ATTR_ARCHIVE, x, stamp), IsKept(v, d1, cat1, dir, name), d1,
                       mid, now)
    ensures SeenWritten(v, dir, name, FileBytes(v.g, d1, x.first, x.size), IsKept(v, d, cat, dir, name), d, was, now)
  {
    hide WellFormed, Alike, Intact, Consistent, IsFileChain, Unreferenced, DirSectors, DirBlocks, IsKept, Added,
      NowReads, FileBytes, NewEntry, IntactButOne;
    forall s | s in now && s !in was
      ensures Intact(v, d, s)
              || (IntactButOne(v, dir, d, s)
                  && (IsKept(v, d, cat, dir, name) ==>
                      NowReads(v, dir, name, FileBytes(v.g, d1, x.first, x.size), d, s)))
    {
      if s !in mid {
        if Intact(v, d1, s) {
          ReadyBoot(v, cat, d, x.first, cat1, d1);
          AlikeIntact(v, cat, d, d1, s);
        } else {
          AddedIsRead(v, cat, d, cat1, d1, dir, name, x, stamp, s);
        }
      }
    }
  }

  lemma ReadyBoot(v: Volume, cat: Catalog, d: Disk, first: nat, cat1: Catalog, d1: Disk)
    requires ChainReady(v, cat, d, first, cat1, d1)
    ensures ReadBlock(d1, 0) == ReadBlock(d, 0)
  {
  }

  /** Replacing, compared to the state before the new chain was written. */
  lemma SeenRewritten(v: Volume, cat: Catalog, d: Disk, cat1: Catalog, d1: Disk, dir: Dir, name: Name, first: nat,
                      bytes: Result<seq<byte>>, kept: bool, was: set<Disk>, mid: set<Disk>, now: set<Disk>, end: Disk)
    requires ChainReady(v, cat, d, first, cat1, d1) && SeenIntact(v, d, was, mid)
    requires SeenNow(v, dir, name, bytes, d1, mid, now) && NowReads(v, dir, name, bytes, d1, end)
    ensures SeenWritten(v, dir, name, bytes, kept, d, was, now) && NowReads(v, dir, name, bytes, d, end)
  {
    hide WellFormed, Alike, Intact, Consistent, IsFileChain, Unreferenced, DirSectors, DirBlocks, NowReads,
      IntactButOne;
    ReadyBoot(v, cat, d, first, cat1, d1);
    forall s | s == end || (s in now && s !in mid)
      ensures IntactButOne(v, dir, d, s) && NowReads(v, dir, name, bytes, d, s)
    {
      AlikeThenNow(v, cat, dir, name, bytes, d, d1, s);
      NowButOne(v, dir, name, bytes, d, s);
    }
  }

  lemma NowButOne(v: Volume, dir: Dir, name: Name, bytes: Result<seq<byte>>, d: Disk, s: Disk)
    requires NowReads(v, dir, name, bytes, d, s)
    ensures IntactButOne(v, dir, d, s)
  {
    ButOneIs(v, dir, v.fold(name), d, s);
  }

  /** Why writing a file is refused before anything is changed. */
  function WriteRefused(v: Volume, d: Disk, path: seq<Name>, name: Name, data: seq<byte>): Option<FatError> {
    if |data| >= 0x1_0000_0000 then Some(TooBig)
    else if !CheckName(name) then Some(InvalidName)
    else
      var dir := Resolve(v, d, Root, path);
      if dir.Err? then Some(dir.error)
      else
        var e := Lookup(v, d, dir.value, name);
        if e.Ok? && e.value.kind == Directory then Some(NotAFile) else None
  }

  /** What a file of `size` bytes fails for, once nothing else speaks against it: there is no space for its bytes, or
      for an entry. */
  ghost function PutFails(v: Volume, d: Disk, cat: Catalog, dir: Dir, name: Name, size: nat,
                          there: bool): Option<FatError>
    requires v.g.sectorsPerCluster > 0
  {
    var free, clusters := |FreeSet(v.g, d)|, ClustersFor(v.g, size);
    if free < clusters then Some(NoSpace)
    else if there then None
    else AddFails(v.g, HomeOf(v, dir), Slots(DirBlocks(v, d, cat, dir)), EntrySize(name), free - clusters)
  }

  /** How many clusters it takes. */
  ghost function PutTaken(v: Volume, d: Disk, cat: Catalog, dir: Dir, name: Name, size: nat, there: bool): nat {
    (if v.g.sectorsPerCluster > 0 then ClustersFor(v.g, size) else 0)
    + if there then 0 else GrowthFor(v.g, Slots(DirBlocks(v, d, cat, dir)), EntrySize(name))
  }

  ghost function WriteTaken(v: Volume, d: Disk, cat: Catalog, dir: Dir, name: Name, size: nat): nat {
    PutTaken(v, d, cat, dir, name, size, Lookup(v, d, dir, name).Ok?)
  }

  /** The clusters of the file it replaces, if there is one. */
  ghost function WriteFreed(v: Volume, d: Disk, cat: Catalog, dir: Dir, name: Name): set<nat> {
    var e := Lookup(v, d, dir, name);
    if e.Ok? then ChainOf(cat, e.value.first) else {}
  }

  /** All that writing a file fails for. */
  ghost function WriteFails(v: Volume, d: Disk, cat: Catalog, path: seq<Name>, name: Name,
                            data: seq<byte>): Option<FatError>
    requires v.g.sectorsPerCluster > 0
  {
    var refused := WriteRefused(v, d, path, name, data);
    if refused.Some? then refused else
    var dir := Resolve(v, d, Root, path).value;
    PutFails(v, d, cat, dir, name, |data|, Lookup(v, d, dir, name).Ok?)
  }

  /** An operation fails with `fails`, if there is a reason to. */
  predicate Outcome(fails: Option<FatError>, r: Result<()>) { if fails.Some? then r == Err(fails.value) else r.Ok? }

  lemma SelfIntact(v: Volume, cat: Catalog, d: Disk, seen: set<Disk>)
    requires WellFormed(v, d, cat)
    ensures Intact(v, d, d) && SeenIntact(v, d, seen, seen)
  {
    hide WellFormed, ReadFile, ReadDir;
    IsConsistent(v, d, cat);
  }

  /** What writing a new chain gives. */
  lemma NewChainFacts(v: Volume, cat: Catalog, d: Disk, d1: Disk, first: nat, ch: seq<nat>, data: seq<byte>)
    requires IsNewChain(v.g, d, d1, first, ch, data)
    ensures FileBytes(v.g, d1, first, |data|) == Ok(data) && Only(v.g, Elements(ch), Elements(ch), d, d1)
    ensures FreeSet(v.g, d1) + Elements(ch) == FreeSet(v.g, d)
    ensures if first == 0 then ch == []
            else ch != [] && first in WithNew(cat, ch).chains && WithNew(cat, ch).chains[first] == ch
  {
    hide FileBytes, Only, FreeSet, Elements;
  }

  lemma SameEntriesThere(v: Volume, d: Disk, cat: Catalog, d': Disk, cat': Catalog, dir: Dir)
    requires DirBlocks(v, d, cat, dir) == DirBlocks(v, d', cat', dir)
    ensures DirEntries(v, d, cat, dir) == DirEntries(v, d', cat', dir)
  {
  }

  lemma NewFilePoints(v: Volume, cat: Catalog, name: Name, x: Extent, stamp: Stamp)
    requires x.first == 0 || IsFileChain(v, cat, x.first)
    ensures PointsWell(v, cat, NewEntry(name, ATTR_ARCHIVE, x, stamp))
  {
  }

  lemma SeenIntactTrans(v: Volume, d: Disk, was: set<Disk>, mid: set<Disk>, now: set<Disk>)
    requires SeenIntact(v, d, was, mid) && SeenIntact(v, d, mid, now)
    ensures SeenIntact(v, d, was, now)
  {
    hide Intact;
  }

  lemma IntactTrans(v: Volume, d: Disk, d': Disk, was: set<Disk>, mid: set<Disk>, now: set<Disk>, end: Disk)
    requires Intact(v, d, d') && SeenIntact(v, d, was, mid) && SeenIntact(v, d', mid, now) && Intact(v, d', end)
    ensures SeenIntact(v, d, was, now) && Intact(v, d, end)
  {
    hide Consistent, ReadFile, ReadDir;
    forall s | s == end || (s in now && s !in mid) ensures Intact(v, d, s) {
      assert SameReads(v, d, d') && SameReads(v, d', s);
    }
  }

  lemma SeenWrittenThenIntact(v: Volume, dir: Dir, name: Name, bytes: Result<seq<byte>>, kept: bool, d: Disk, d': Disk,
                              was: set<Disk>, mid: set<Disk>, now: set<Disk>, end: Disk)
    requires SeenWritten(v, dir, name, bytes, kept, d, was, mid) && IntactButOne(v, dir, d, d')
             && (kept ==> NowReads(v, dir, name, bytes, d, d'))
    requires SeenIntact(v, d', mid, now) && Intact(v, d', end)
    ensures SeenWritten(v, dir, name, bytes, kept, d, was, now) && IntactButOne(v, dir, d, end)
            && (kept ==> NowReads(v, dir, name, bytes, d, end))
  {
    hide NowReads, SameReads, Consistent, ReadBlock, IntactButOne;
    forall s | s == end || (s in now && s !in mid)
      ensures IntactButOne(v, dir, d, s) && (kept ==> NowReads(v, dir, name, bytes, d, s))
    {
      ButOneThenIntact(v, dir, d, d', s);
      if kept {
        NowThenIntact(v, dir, name, bytes, d, d', s);
      }
    }
  }

  /** A new file's name will read back; an existing one keeps its entry. */
  ghost predicate FileKept(v: Volume, d: Disk, cat: Catalog, dir: Dir, name: Name) {
    NoMatch(v, DirEntries(v, d, cat, dir), v.fold(name)) ==>
      NameKept(v.g.fatType, Slots(DirBlocks(v, d, cat, dir)), name)
  }

  lemma FileKeptIs(v: Volume, d: Disk, cat: Catalog, dir: Dir, name: Name)
    ensures FileKept(v, d, cat, dir, name)
            == (Find(v, DirEntries(v, d, cat, dir), name) < |DirEntries(v, d, cat, dir)|
                || IsKept(v, d, cat, dir, name))
  {
  }

  /** No directory is so big that its aliases could run out. */
  ghost predicate DirsFit(v: Volume, cat: Catalog, most: nat) {
    forall dir :: dir in cat.dirs ==> 16 * |DirSectors(v, cat, dir)| < most
  }

  lemma NowReadsPath(v: Volume, dir: Dir, name: Name, bytes: Result<seq<byte>>, d: Disk, s: Disk, path: seq<Name>)
    requires NowReads(v, dir, name, bytes, d, s) && Resolve(v, d, Root, path) == Ok(dir)
    ensures ReadFile(v, s, path, name) == bytes
  {
  }
}
