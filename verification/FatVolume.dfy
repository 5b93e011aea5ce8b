/** A mounted FAT volume: its device, the FAT sectors kept in memory, and the operations on it. */
module FatVolume {
  import opened Bytes
  import opened Ranges
  import opened FatLayout
  import opened FatChains
  import opened FatNames
  import opened FatLongNames
  import opened FatDirectory
  import opened FatDirectoryChanges
  import opened FatNewEntries
  import opened FatTree
  import opened FatWrites
  import opened FatTables
  import opened FatRewrites
  import opened FatImages
  import opened FatRuns
  import opened FatReads
  import opened FatUpdates
  import opened FatCatalogs
  import opened FatSafety
  import opened FatFiles
  import opened FatDirs
  import opened FatRemovals

  /** Most sectors read or written in one go. */
  const MAX_RUN_SECTORS: nat := 256

  class Fat {
    const v: Volume
    var disk: Disk
    /** The last FAT sector read, since chains mostly stay within one. */
    var fatCache: Option<(nat, Block)>
    /** A FAT sector changed and not written to the FATs yet. Reads see it first. */
    var fatDirty: Option<(nat, Block)>
    /** Free clusters, once counted. */
    var freeCount: Option<nat>
    /** Where to start looking for free clusters. */
    var nextFree: nat
    var stamp: Stamp
    /** Every contents the device has had since the volume was mounted: what a power cut could have
        left behind. */
    ghost var seen: set<Disk>

    ghost predicate Valid()
      reads this`disk, this`fatCache, this`fatDirty, this`seen, this`stamp
    {
      && v.g.Sound() && stamp.Fits() && disk in seen
      && (fatCache.Some? ==> v.g.InFirstFat(fatCache.value.0) && fatCache.value.1 == ReadBlock(disk, fatCache.value.0))
      && (fatDirty.Some? ==> v.g.InFirstFat(fatDirty.value.0))
      && (fatDirty.Some? && fatCache.Some? ==> fatDirty.value.0 != fatCache.value.0)
    }

    /** The device once the pending FAT sector is written. */
    ghost function Effective(): Disk
      reads this`disk, this`fatDirty
    {
      Overlay(disk, fatDirty)
    }

    /** Between operations: nothing is pending, and the free count is exact. */
    ghost predicate AtRest()
      reads this
    {
      Valid() && fatDirty.None? && (freeCount.Some? ==> freeCount.value == |FreeSet(v.g, disk)|)
    }

    constructor (v: Volume, disk: Disk)
      requires v.g.Sound()
      ensures AtRest() && this.v == v && this.disk == disk && seen == {disk} && freeCount.None? && fatCache.None?
    {
      this.v, this.disk := v, disk;
      fatCache, fatDirty, freeCount, nextFree := None, None, None, 2;
      stamp := Stamp(23585, 0);
      seen := {disk};
    }

    lemma StampFits()
      requires Valid()
      ensures stamp.Fits()
    {
    }

    lemma SoundGeometry()
      requires Valid()
      ensures v.g.Sound() && 1 <= v.g.sectorsPerCluster
    {
    }

    /* Reading. */

    /** FAT entry `c`. A pending change wins over the disk. */
    method Entry(c: nat) returns (value: nat)
      requires Valid() && v.g.IsCluster(c)
      modifies this`fatCache
      ensures Valid() && value == FatEntry(v.g, Effective(), c)
    {
      hide Decode;
      EntryPlaces(v.g, c);
      EntryIn(v.g, Effective(), c);
      var sector, at := v.g.FatSector(c), v.g.FatOffset(c);
      if fatDirty.Some? && fatDirty.value.0 == sector {
        return Decode(v.g.fatType, fatDirty.value.1, at);
      }
      if fatCache.Some? && fatCache.value.0 == sector {
        return Decode(v.g.fatType, fatCache.value.1, at);
      }
      var block := ReadBlock(disk, sector);
      value := Decode(v.g.fatType, block, at);
      fatCache := Some((sector, block));
    }

    /** The cluster after `c` in its chain, or none at the end. */
    method Following(c: nat) returns (r: Result<Option<nat>>)
      requires Valid() && v.g.IsCluster(c)
      modifies this`fatCache
      ensures Valid()
      ensures r == match Next(v.g, Effective(), c) case End => Ok(None) case Bad => Err(BadCluster(c))
              case Link(n) => Ok(Some(n))
    {
      hide FatEntry;
      var value := Entry(c);
      if value >= v.g.fatType.EndMark() {
        return Ok(None);
      } else if value == v.g.fatType.BadMark() {
        return Err(BadCluster(c));
      }
      return Ok(Some(value));
    }

    /** The clusters of the chain starting at `first`, checked. */
    method Chain(first: nat) returns (r: Result<seq<nat>>)
      requires Valid()
      modifies this`fatCache
      ensures Valid() && r == Walk(v.g, Effective(), Some(first), [], None)
    {
      hide Next, Valid;
      var chain: seq<nat> := [];
      var at: Option<nat> := Some(first);
      while at.Some?
        invariant Valid() && Effective() == old(Effective())
        invariant Walk(v.g, Effective(), Some(first), [], None) == Walk(v.g, Effective(), at, chain, None)
        invariant |chain| <= v.g.clusterCount
        decreases v.g.clusterCount - |chain|, if at.Some? then 1 else 0
      {
        var current := at.value;
        if !v.g.IsCluster(current) {
          return Err(BadCluster(current));
        }
        if |chain| >= v.g.clusterCount {
          return Err(ChainLoop);
        }
        at :- Following(current);
        chain := chain + [current];
      }
      return Ok(chain);
    }

    /** Extends the run of clusters from `start` on while the chain goes on to the very next one. Returns
        its length, and where the chain goes after it. */
    method ExtendRun(start: nat, limit: Option<nat>, length: nat, taken: nat, ghost done: seq<nat>)
      returns (r: Result<(nat, Option<nat>)>)
      requires Valid() && fatDirty.None? && AllFrom2(done) && taken == |done| <= v.g.clusterCount
      requires length == |done| * v.g.ClusterSize() && !Covered(v.g, |done|, limit)
      modifies this`fatCache
      ensures Valid()
      ensures r.Err? ==> Walk(v.g, disk, Some(start), done, limit) == Err(r.error)
      ensures r.Ok? ==>
                && 0 < r.value.0 <= v.g.clusterCount - |done| && AllFrom2(done + Run(start, r.value.0))
                && Walk(v.g, disk, Some(start), done, limit)
                   == Walk(v.g, disk, r.value.1, done + Run(start, r.value.0), limit)
    {
      hide Walk, Valid, Next;
      SoundGeometry();
      var maxRun := if MAX_RUN_SECTORS / v.g.sectorsPerCluster > 1 then MAX_RUN_SECTORS / v.g.sectorsPerCluster else 1;
      var run, current, steps := 0, start, taken;
      assert done + Run(start, 0) == done;
      while true
        invariant Valid() && steps == |done| + run <= v.g.clusterCount && AllFrom2(done + Run(start, run))
        invariant current == start + run && !Covered(v.g, |done| + run, limit)
        invariant Walk(v.g, disk, Some(start), done, limit)
                  == Walk(v.g, disk, Some(current), done + Run(start, run), limit)
        decreases v.g.clusterCount - steps
      {
        WalkStep(v.g, disk, current, done + Run(start, run), limit);
        if !v.g.IsCluster(current) {
          return Err(BadCluster(current));
        }
        steps := steps + 1;
        if steps > v.g.clusterCount {
          return Err(ChainLoop);
        }
        run := run + 1;
        var next :- Following(current);
        RunMore(start, run);
        assert (done + Run(start, run - 1)) + [current] == done + Run(start, run);
        RunBytes(v.g, |done|, run);
        if next != Some(current + 1) || run >= maxRun
            || (limit.Some? && length + run * v.g.ClusterSize() >= limit.value)
        {
          return Ok((run, next));
        }
        current := current + 1;
      }
    }

    /** Reads the chain starting at `first`: `limit` bytes of it, or all of it. Runs of consecutive
        clusters are read in one go. */
    method ReadChain(first: nat, limit: Option<nat>) returns (r: Result<seq<byte>>)
      requires Valid() && fatDirty.None?
      modifies this`fatCache
      ensures Valid() && r == ChainBytes(v.g, disk, first, limit)
    {
      hide Walk, Sectors, Blocks, Flatten, Valid, Next, Run, RegionSectors;
      if limit == Some(0) {
        return Ok([]);
      }
      var bytes: seq<byte> := [];
      var at: Option<nat> := Some(first);
      var steps := 0;
      ghost var done: seq<nat> := [];
      ghost var walk := Walk(v.g, disk, Some(first), [], limit);
      NothingCovers(v.g, disk);
      while at.Some? && !(limit.Some? && |bytes| >= limit.value)
        invariant Valid() && steps == |done| <= v.g.clusterCount && AllFrom2(done)
        invariant walk == Walk(v.g, disk, at, done, limit)
        invariant bytes == Flatten(Blocks(disk, Sectors(v.g, done))) && |bytes| == |done| * v.g.ClusterSize()
        decreases v.g.clusterCount - steps
      {
        var start := at.value;
        var run :- ExtendRun(start, limit, |bytes|, steps, done);
        steps := steps + run.0;
        RunReads(v.g, disk, done, start, run.0);
        bytes := bytes + Flatten(Blocks(disk, RegionSectors(v.g.FirstSector(start), run.0 * v.g.sectorsPerCluster)));
        at, done := run.1, done + Run(start, run.0);
      }
      WalkStops(v.g, disk, at, done, limit);
      if limit.Some? {
        if |bytes| < limit.value {
          return Err(Truncated);
        }
        return Ok(bytes[..limit.value]);
      }
      return Ok(bytes);
    }
  
    /** The entries of a directory. */
    method ListEntries(dir: Dir) returns (r: Result<seq<Located>>)
      requires Valid() && fatDirty.None?
      modifies this`fatCache
      ensures Valid() && r == ListDir(v, disk, dir)
    {
      hide Valid, Walk, Sectors, Blocks, Flatten, Slots, Entries, RegionSectors, BytesSlots;
      var bytes: seq<byte>;
      if dir.Root? && v.g.root.Fixed? {
        bytes := Flatten(Blocks(disk, RegionSectors(v.g.root.start, v.g.root.sectors)));
        FlattenSlots(Blocks(disk, RegionSectors(v.g.root.start, v.g.root.sectors)));
      } else {
        var first := if dir.Root? then v.g.root.first else dir.first;
        bytes :- ReadChain(first, None);
        ghost var sectors := FindSectors(v, disk, dir).value;
        FlattenSlots(Blocks(disk, sectors));
      }
      var entries := ParseLocated(v.g.fatType, BytesSlots(bytes));
      return Ok(entries);
    }

    method FindIn(dir: Dir, name: Name) returns (r: Result<DirEntry>)
      requires Valid() && fatDirty.None?
      modifies this`fatCache
      ensures Valid() && r == Lookup(v, disk, dir, name)
    {
      hide Valid, ListDir;
      var entries :- ListEntries(dir);
      var i := 0;
      while i < |entries| && v.fold(entries[i].entry.name) != v.fold(name)
        invariant 0 <= i <= Find(v, entries, name)
      {
        i := i + 1;
      }
      return if i < |entries| then Ok(entries[i].entry) else Err(NotFound);
    }

    /** The directory at `path`. */
    method FindDir(path: seq<Name>) returns (r: Result<Dir>)
      requires Valid() && fatDirty.None?
      modifies this`fatCache
      ensures Valid() && r == Resolve(v, disk, Root, path)
    {
      hide Valid, Lookup;
      var dir := Root;
      var i := 0;
      assert path[0..] == path;
      while i < |path|
        invariant 0 <= i <= |path| && Valid()
        invariant Resolve(v, disk, Root, path) == Resolve(v, disk, dir, path[i..])
      {
        assert path[i..][1..] == path[i + 1..];
        var e :- FindIn(dir, path[i]);
        if e.kind != Directory {
          return Err(NotADirectory);
        }
        // Cluster 0 means the root.
        dir := if e.first == 0 then Root else Sub(e.first);
        i := i + 1;
      }
      return Ok(dir);
    }

    /** Reads the whole file `name` in the directory at `path`. */
    method Read(path: seq<Name>, name: Name) returns (r: Result<seq<byte>>)
      requires Valid() && fatDirty.None?
      modifies this`fatCache
      ensures Valid() && r == ReadFile(v, disk, path, name)
    {
      hide Valid, Lookup, FileBytes, Resolve;
      var dir :- FindDir(path);
      var e :- FindIn(dir, name);
      if e.kind != File {
        return Err(NotAFile);
      }
      r := ReadChain(e.first, Some(e.size));
    }

    /** Reads a whole directory, noting the sectors it is in. */
    method LoadDir(dir: Dir) returns (r: Result<DirImage>)
      requires Valid() && fatDirty.None?
      modifies this`fatCache
      ensures Valid()
      ensures r.Err? ==> FindSectors(v, disk, dir) == Err(r.error)
      ensures r.Ok? ==>
              fresh(r.value) && FindSectors(v, disk, dir) == Ok(r.value.sectors)
                && r.value.slots == Slots(Blocks(disk, r.value.sectors))
    {
      hide Valid, Walk, Sectors, Slots, BlockSlots, RegionSectors;
      var sectors: seq<nat>;
      if dir.Root? && v.g.root.Fixed? {
        sectors := RegionSectors(v.g.root.start, v.g.root.sectors);
      } else {
        var first := if dir.Root? then v.g.root.first else dir.first;
        var chain :- Chain(first);
        WalkedFrom2(v.g, disk, Some(first), [], None);
        sectors := Sectors(v.g, chain);
      }
      var slots: seq<Slot> := [];
      var i := 0;
      NoSlots();
      while i < |sectors|
        invariant 0 <= i <= |sectors| && Valid() && slots == Slots(Blocks(disk, sectors[..i]))
      {
        slots := slots + BlockSlots(ReadBlock(disk, sectors[i]));
        MoreSlots(Blocks(disk, sectors[..i + 1]));
        assert Blocks(disk, sectors[..i + 1])[..i] == Blocks(disk, sectors[..i]);
        i := i + 1;
      }
      assert sectors[..i] == sectors;
      var image := new DirImage(sectors, slots);
      return Ok(image);
    }

    /* Writing. */

    /** One block written: the step between two states a power cut could leave. */
    method WriteBlock(sector: nat, block: Block)
      requires Valid() && (fatCache.Some? ==> fatCache.value.0 != sector)
      modifies this`disk, this`seen
      ensures Valid() && disk == old(disk)[sector := block] && seen == old(seen) + {disk}
    {
      disk := disk[sector := block];
      seen := seen + {disk};
    }

    /** Writes the pending FAT sector to every copy of the FAT. */
    method FlushFat()
      requires Valid()
      modifies this`disk, this`seen, this`fatCache, this`fatDirty
      ensures Valid() && fatDirty.None? && Only(v.g, {}, {}, old(Effective()), disk)
      ensures SeenWithin(v.g, Scope({}, {}, old(Effective())), old(seen), seen)
      ensures old(CopiesEqual(v.g, disk)) ==> CopiesEqual(v.g, disk)
    {
      hide Only, CopiesEqual, ReadBlock, CopySector;
      if fatDirty.None? {
        OnlyRefl(v.g, {}, {}, disk);
        return;
      }
      var sector, block := fatDirty.value.0, fatDirty.value.1;
      ghost var d := disk;
      fatDirty := None;
      var copy := 0;
      while copy < v.g.fatCount
        invariant 0 <= copy <= v.g.fatCount && Valid() && disk == PutCopies(v.g, d, sector, block, copy)
                  && fatDirty.None?
        invariant fatCache == old(fatCache) && SeenWithin(v.g, Scope({}, {}, d[sector := block]), old(seen), seen)
      {
        if fatCache.Some? {
          CopyPlaces(v.g, sector, copy, fatCache.value.0, 0);
          FirstCopy(v.g, fatCache.value.0);
          FirstCopy(v.g, sector);
        }
        WriteBlock(CopySector(v.g, sector, copy), block);
        copy := copy + 1;
        PutCopiesSome(v.g, d, sector, block, copy);
      }
      PutCopiesSome(v.g, d, sector, block, copy);
      fatCache := Some((sector, block));
    }

    /** Changes FAT entry `c` in the pending sector, writing out another pending one first. */
    method SetFatEntry(c: nat, value: nat, ghost sc: Scope)
      requires Valid() && v.g.IsCluster(c) && value <= v.g.fatType.Mask() && c in sc.fs && Within(v.g, sc, Effective())
      modifies this`disk, this`seen, this`fatCache, this`fatDirty
      ensures Valid() && Only(v.g, {c}, {}, old(Effective()), Effective()) && FatEntry(v.g, Effective(), c) == value
      ensures Within(v.g, sc, Effective()) && SeenWithin(v.g, sc, old(seen), seen)
      ensures old(fatDirty).None? ==> disk == old(disk) && seen == old(seen)
      ensures old(CopiesEqual(v.g, disk)) ==> CopiesEqual(v.g, disk)
    {
      hide Within, Only, CopiesEqual, PutEntry, Decode, SeenWithin;
      EntryPlaces(v.g, c);
      EntryIn(v.g, disk, c);
      var sector, at := v.g.FatSector(c), v.g.FatOffset(c);
      ghost var before := Effective();
      OnlyRefl(v.g, {}, {}, before);
      SeenRefl(v.g, sc, seen);
      if fatDirty.Some? && fatDirty.value.0 != sector {
        FlushFat();
        SeenSame(v.g, sc, before, old(seen), seen);
      }
      if fatDirty.None? {
        var block := ReadBlock(disk, sector);
        if fatCache.Some? && fatCache.value.0 == sector {
          block := fatCache.value.1;
        }
        fatCache := None;
        fatDirty := Some((sector, block));
        OverlaySame(v.g, disk, sector);
        OnlySame(v.g, before, disk, Effective());
      }
      ghost var now := Effective();
      fatDirty := Some((sector, PutEntry(v.g.fatType, fatDirty.value.1, at, value)));
      SetsEntry(v.g, now, c, value);
      assert Effective() == now[sector := fatDirty.value.1];
      OnlyThenSet(v.g, c, before, now, Effective());
      SetWithin(v.g, sc, c, before, Effective());
    }

    /** Sets the entries of the clusters `cs`, and writes them out. */
    method SetEntries(cs: seq<nat>, values: seq<nat>, ghost sc: Scope)
      requires Valid() && fatDirty.None? && Distinct(cs) && AllClusters(v.g, cs) && Elements(cs) <= sc.fs
               && Within(v.g, sc, disk)
      requires |values| == |cs| && forall i :: 0 <= i < |cs| ==> values[i] <= v.g.fatType.Mask()
      modifies this`disk, this`seen, this`fatCache, this`fatDirty
      ensures Valid() && fatDirty.None? && SetTo(v.g, disk, cs, values, |cs|)
              && Only(v.g, Elements(cs), {}, old(disk), disk)
      ensures Within(v.g, sc, disk) && SeenWithin(v.g, sc, old(seen), seen)
      ensures old(CopiesEqual(v.g, disk)) ==> CopiesEqual(v.g, disk)
    {
      hide Valid, Within, Only, CopiesEqual, FatEntry, SeenWithin, SetTo;
      ghost var d := disk;
      OnlyRefl(v.g, Elements(cs), {}, d);
      SetNone(v.g, d, cs, values);
      SeenRefl(v.g, sc, seen);
      var i := 0;
      while i < |cs|
        invariant 0 <= i <= |cs| && Valid() && Within(v.g, sc, Effective())
        invariant SetTo(v.g, Effective(), cs, values, i) && Only(v.g, Elements(cs), {}, d, Effective())
        invariant SeenWithin(v.g, sc, old(seen), seen) && (CopiesEqual(v.g, d) ==> CopiesEqual(v.g, disk))
      {
        ghost var e, was := Effective(), seen;
        assert cs[i] in Elements(cs);
        SetFatEntry(cs[i], values[i], sc);
        SetMore(v.g, d, e, Effective(), cs, values, i);
        SeenTrans(v.g, sc, old(seen), was, seen);
        i := i + 1;
      }
      ghost var e, was := Effective(), seen;
      FlushFat();
      SeenSame(v.g, sc, e, was, seen);
      SeenTrans(v.g, sc, old(seen), was, seen);
      SameWithin(v.g, sc, e, disk);
      SetStays(v.g, d, e, disk, cs, values);
    }

    /** Points the entry of `last`, until now the end of a chain, at `next`. */
    method Hook(last: nat, next: nat)
      requires AtRest() && v.g.IsCluster(last) && v.g.IsCluster(next) && last !in FreeSet(v.g, disk)
      modifies this`disk, this`seen, this`fatCache, this`fatDirty
      ensures AtRest() && Only(v.g, {last}, {}, old(disk), disk) && FatEntry(v.g, disk, last) == next
              && FreeSet(v.g, disk) == FreeSet(v.g, old(disk))
      ensures old(seen) <= seen
              && forall s :: s in seen ==>
                   s in old(seen) || (Only(v.g, {last}, {}, old(disk), s) && FatEntry(v.g, s, last) == next)
      ensures old(CopiesEqual(v.g, disk)) ==> CopiesEqual(v.g, disk)
    {
      hide Valid, Within, Only, CopiesEqual, FatEntry, FreeSet;
      SoundGeometry();
      ClustersAreNoMarkers(v.g, next);
      ghost var d, sc := disk, Scope({last}, {}, disk);
      WithinBase(v.g, sc);
      SetFatEntry(last, next, sc);
      ghost var e := Effective();
      FlushFat();
      HookedSame(v.g, last, next, d, e, disk);
      forall s | s in seen && s !in old(seen) ensures Only(v.g, {last}, {}, d, s) && FatEntry(v.g, s, last) == next {
        assert Within(v.g, Scope({}, {}, e), s);
        WithinOnly(v.g, Scope({}, {}, e), s);
        HookedSame(v.g, last, next, d, e, s);
      }
    }

    /** Chains `clusters` in the FAT, in order, ending the chain after the last. */
    method Link(clusters: seq<nat>, ghost sc: Scope)
      requires AtRest() && clusters != [] && Distinct(clusters) && AllClusters(v.g, clusters)
      requires Elements(clusters) <= FreeSet(v.g, disk) && Elements(clusters) <= sc.fs && Within(v.g, sc, disk)
      modifies this`disk, this`seen, this`fatCache, this`fatDirty, this`freeCount
      ensures AtRest() && IsChain(v.g, disk, clusters) && Only(v.g, Elements(clusters), {}, old(disk), disk)
      ensures FreeSet(v.g, disk) == old(FreeSet(v.g, disk)) - Elements(clusters)
      ensures Within(v.g, sc, disk) && SeenWithin(v.g, sc, old(seen), seen)
      ensures old(CopiesEqual(v.g, disk)) ==> CopiesEqual(v.g, disk)
      ensures freeCount.Some? <==> old(freeCount).Some?
    {
      hide Valid, Within, Only, CopiesEqual, SeenWithin, SetTo, IsChain, FatEntry, FreeSet, Elements, Distinct,
        AllClusters;
      SoundGeometry();
      LinksFit(v.g, clusters);
      SetEntries(clusters, Links(v.g, clusters), sc);
      LinksChain(v.g, disk, clusters);
      FreeAll(v.g, old(disk), clusters);
      FreeSetTaken(v.g, old(disk), disk, clusters, {});
      if freeCount.Some? {
        freeCount := Some(freeCount.value - |clusters|);
      }
    }

    /** Frees the chain starting at `first` (nothing for 0). */
    method FreeChain(first: nat, ghost sc: Scope) returns (r: Result<()>)
      requires AtRest() && Within(v.g, sc, disk)
      requires first != 0 && Walk(v.g, disk, Some(first), [], None).Ok? ==>
               Elements(Walk(v.g, disk, Some(first), [], None).value) <= sc.fs
      modifies this`disk, this`seen, this`fatCache, this`fatDirty, this`freeCount, this`nextFree
      ensures AtRest() && Within(v.g, sc, disk) && SeenWithin(v.g, sc, old(seen), seen)
      ensures old(CopiesEqual(v.g, disk)) ==> CopiesEqual(v.g, disk)
      ensures freeCount.Some? <==> old(freeCount).Some?
      ensures var walk := Walk(v.g, old(disk), Some(first), [], None);
              if first == 0 then r == Ok(()) && FreeSet(v.g, disk) == FreeSet(v.g, old(disk))
              else if walk.Err? then r == Err(walk.error) && disk == old(disk)
              else r == Ok(()) && FreeSet(v.g, disk) == FreeSet(v.g, old(disk)) + Elements(walk.value)
    {
      hide Valid, Within, Only, CopiesEqual, SeenWithin, SetTo, IsChain, FatEntry, Walk, FreeSet, Elements, Distinct,
        AllClusters, Unlinked;
      SoundGeometry();
      var chain: seq<nat> := [];
      NoElements(v.g);
      SeenRefl(v.g, sc, seen);
      if first != 0 {
        chain :- Chain(first);
        WalkedChain(v.g, disk, first);
      }
      SetEntries(chain, Unlinked(|chain|), sc);
      ghost var d := old(disk);
      FreeSetGiven(v.g, d, disk, chain);
      if freeCount.Some? {
        freeCount := Some(freeCount.value + |chain|);
      }
      if chain != [] {
        var lowest := Least(chain);
        nextFree := if nextFree < lowest then nextFree else lowest;
      }
      return Ok(());
    }

    /** Finds `count` free clusters. Nothing is marked yet: they stay free until `Link`. */
    method Allocate(count: nat) returns (r: Result<seq<nat>>)
      requires Valid() && fatDirty.None?
      modifies this`fatCache, this`nextFree
      ensures Valid()
      ensures r.Err? <==> |FreeSet(v.g, disk)| < count
      ensures r.Err? ==> r.error == NoSpace && nextFree == old(nextFree)
      ensures r.Ok? ==>
              |r.value| == count && Distinct(r.value) && AllClusters(v.g, r.value)
                && Elements(r.value) <= FreeSet(v.g, disk)
    {
      hide Valid, FatEntry, Probe;
      SoundGeometry();
      var total := v.g.clusterCount;
      var start := if nextFree < 2 then 2 else if nextFree > total + 1 then total + 1 else nextFree;
      var clusters: seq<nat> := [];
      var i := 0;
      while i < total && |clusters| < count
        invariant 0 <= i <= total && |clusters| <= count && Valid() && nextFree == old(nextFree) && Distinct(clusters)
                  && AllClusters(v.g, clusters)
        invariant forall c :: c in clusters ==>
                    FatEntry(v.g, disk, c) == 0 && exists j :: 0 <= j < i && c == Probe(v.g, start, j)
        invariant forall j :: 0 <= j < i && FatEntry(v.g, disk, Probe(v.g, start, j)) == 0 ==>
                    Probe(v.g, start, j) in clusters
      {
        var cluster := Probe(v.g, start, i);
        ProbeIsCluster(v.g, start, i);
        forall j | 0 <= j < i ensures Probe(v.g, start, j) != cluster {
          ProbesDiffer(v.g, start, j, i);
        }
        var value := Entry(cluster);
        if value == 0 {
          clusters := clusters + [cluster];
        }
        i := i + 1;
      }
      DistinctSize(clusters);
      assert Elements(clusters) <= FreeSet(v.g, disk);
      SubsetSize(Elements(clusters), FreeSet(v.g, disk));
      if |clusters| < count {
        FoundAllFree(v.g, disk, start, clusters);
        return Err(NoSpace);
      }
      nextFree := if clusters == [] then 2 else clusters[|clusters| - 1] + 1;
      return Ok(clusters);
    }

    /** Writes `data` (zero-padded to whole clusters) into `clusters`, a run of consecutive ones at a
        time. */
    method WriteClusters(clusters: seq<nat>, data: seq<byte>, ghost sc: Scope)
      requires Valid() && Distinct(clusters) && AllClusters(v.g, clusters) && AllFrom2(clusters)
               && Elements(clusters) <= sc.ds && Within(v.g, sc, disk)
      requires |data| <= |clusters| * v.g.ClusterSize() && |clusters| * v.g.ClusterSize() % BLOCK_SIZE == 0
      modifies this`disk, this`seen
      ensures Valid() && Blocks(disk, Sectors(v.g, clusters)) == Chop(Pad(data, |clusters| * v.g.ClusterSize()))
      ensures Only(v.g, {}, Elements(clusters), old(disk), disk)
      ensures Within(v.g, sc, disk) && SeenWithin(v.g, sc, old(seen), seen)
      ensures old(CopiesEqual(v.g, disk)) ==> CopiesEqual(v.g, disk)
    {
      hide Valid, Sectors, Chop, Pad, Within, Only, SeenWithin, CopiesEqual, Run, Distinct, AllClusters, FilledTo;
      SoundGeometry();
      ghost var d0, sectors := disk, Sectors(v.g, clusters);
      ClusterBytes(v.g, |clusters|);
      SectorsAreDistinct(v.g, clusters);
      var blocks := Chop(Pad(data, |clusters| * v.g.ClusterSize()));
      var per := v.g.sectorsPerCluster;
      var maxRun := if MAX_RUN_SECTORS / per > 1 then MAX_RUN_SECTORS / per else 1;
      FillNone(d0, sectors, blocks);
      SeenRefl(v.g, sc, seen);
      var i := 0;
      while i < |clusters|
        invariant 0 <= i <= |clusters| && Valid() && Within(v.g, sc, disk) && SeenWithin(v.g, sc, old(seen), seen)
        invariant i * per <= |sectors| == |blocks| && FilledTo(d0, disk, sectors, blocks, i * per)
      {
        var run := RunLength(clusters, i, maxRun);
        RunPlaces(v.g, clusters, i, run);
        ghost var was := seen;
        WriteRun(clusters, blocks, i, run, sc, d0);
        SeenTrans(v.g, sc, old(seen), was, seen);
        i := i + run;
      }
      FilledAll(d0, disk, sectors, blocks);
      assert |sectors| == |clusters| * per;
      FilledOnly(v.g, d0, disk, clusters, blocks, |sectors|);
      if CopiesEqual(v.g, d0) {
        CopiesStay(v.g, d0, disk);
      }
    }

    /** How many clusters from `i` on are consecutive, up to `max`. */
    static method RunLength(clusters: seq<nat>, i: nat, max: nat) returns (run: nat)
      requires i < |clusters|
      ensures 0 < run <= |clusters| - i && clusters[i..i + run] == Run(clusters[i], run)
    {
      run := 1;
      while i + run < |clusters| && clusters[i + run] == clusters[i] + run && run < max
        invariant 0 < run <= |clusters| - i && clusters[i..i + run] == Run(clusters[i], run)
      {
        assert clusters[i..i + (run + 1)] == clusters[i..i + run] + [clusters[i + run]];
        run := run + 1;
      }
    }

    /** Writes the blocks of a run of clusters. */
    method WriteRun(clusters: seq<nat>, blocks: seq<Block>, i: nat, run: nat, ghost sc: Scope, ghost d0: Disk)
      requires Valid() && AllFrom2(clusters) && i + run <= |clusters| && 0 < run && Distinct(Sectors(v.g, clusters))
               && Elements(clusters) <= sc.ds
      requires Within(v.g, sc, disk)
               && |Sectors(v.g, clusters)| == |blocks| >= i * v.g.sectorsPerCluster + run * v.g.sectorsPerCluster
      requires var at, n := i * v.g.sectorsPerCluster, run * v.g.sectorsPerCluster;
               Sectors(v.g, clusters)[at..at + n] == RegionSectors(v.g.FirstSector(clusters[i]), n)
      requires FilledTo(d0, disk, Sectors(v.g, clusters), blocks, i * v.g.sectorsPerCluster)
      modifies this`disk, this`seen
      ensures Valid() && Within(v.g, sc, disk) && SeenWithin(v.g, sc, old(seen), seen)
      ensures FilledTo(d0, disk, Sectors(v.g, clusters), blocks,
                       i * v.g.sectorsPerCluster + run * v.g.sectorsPerCluster)
    {
      hide Sectors, Within, Distinct, FilledTo, ReadBlock;
      var n, per := i * v.g.sectorsPerCluster, run * v.g.sectorsPerCluster;
      ghost var sectors := Sectors(v.g, clusters);
      var t := 0;
      while t < per
        invariant 0 <= t <= per && Valid() && Within(v.g, sc, disk) && SeenWithin(v.g, sc, old(seen), seen)
        invariant FilledTo(d0, disk, sectors, blocks, n + t)
      {
        FillNext(d0, disk, sectors, blocks, n + t);
        ghost var d := disk;
        assert sectors[n + t] == sectors[n..n + per][t];
        NotCached(clusters, n + t);
        WriteBlock(v.g.FirstSector(clusters[i]) + t, blocks[n + t]);
        WroteWithin(v.g, sc, clusters, n + t, d, blocks[n + t]);
        t := t + 1;
      }
    }

    lemma NotCached(clusters: seq<nat>, k: nat)
      requires Valid() && AllFrom2(clusters) && k < |Sectors(v.g, clusters)|
      ensures fatCache.Some? ==> fatCache.value.0 != Sectors(v.g, clusters)[k]
    {
      hide Sectors;
      ChainSectorIsData(v, clusters, k);
      Regions(v.g);
    }

    /** After a change, successful or not: brings FSInfo up to date. */
    method FinishChange(ghost sc: Scope)
      requires AtRest() && Within(v.g, sc, disk)
      modifies this`disk, this`seen
      ensures AtRest() && Within(v.g, sc, disk) && SeenWithin(v.g, sc, old(seen), seen)
              && Only(v.g, {}, {}, old(disk), disk)
      ensures freeCount.Some? && v.g.fsinfo.Some? ==>
              InfoHolds(ReadBlock(disk, v.g.fsinfo.value), freeCount.value, nextFree)
      ensures old(CopiesEqual(v.g, disk)) ==> CopiesEqual(v.g, disk)
    {
      hide Within, Only, CopiesEqual, FreeSet, Patch, Le32, U32;
      OnlyRefl(v.g, {}, {}, disk);
      if v.g.fsinfo.Some? && freeCount.Some? {
        var sector := v.g.fsinfo.value;
        var block := ReadBlock(disk, sector);
        if HasInfo(block) {
          FreeFits(v.g, disk);
          var free, next := Low32(freeCount.value), Low32(nextFree);
          block := Patch(Patch(block, 488, Le32(free)), 492, Le32(next));
          InfoPut(ReadBlock(disk, sector), free, next);
          ghost var d := disk;
          WriteBlock(sector, block);
          InfoOnly(v.g, d, block);
          SameWithin(v.g, sc, d, disk);
          FreeSetSame(v.g, d, disk, {});
          if CopiesEqual(v.g, d) {
            CopiesStay(v.g, d, disk);
          }
        }
      }
    }

    /** Clusters no chain uses. Reads the whole FAT. */
    method FreeClusters() returns (free: nat)
      requires Valid() && fatDirty.None?
      modifies this`fatCache
      ensures Valid() && free == |FreeSet(v.g, disk)|
    {
      hide Valid, FatEntry;
      SoundGeometry();
      free := 0;
      ghost var counted: set<nat> := {};
      var c := 2;
      while c < v.g.clusterCount + 2
        invariant 2 <= c <= v.g.clusterCount + 2 && Valid() && free == |counted|
        invariant forall x :: x in counted <==> 2 <= x < c && FatEntry(v.g, disk, x) == 0
      {
        var value := Entry(c);
        if value == 0 {
          free := free + 1;
          counted := counted + {c};
        }
        c := c + 1;
      }
      assert counted == FreeSet(v.g, disk);
    }

    /** Before the first change on FAT32: counts the free clusters, so FSInfo can be kept up. */
    method BeginChange()
      requires AtRest()
      modifies this`fatCache, this`freeCount
      ensures AtRest() && (v.g.fsinfo.Some? ==> freeCount.Some?)
    {
      if v.g.fsinfo.Some? && freeCount.None? {
        var free := FreeClusters();
        freeCount := Some(free);
      }
    }

    /** Writes `data` into free clusters, then chains them in the FAT. */
    method FillChain(clusters: seq<nat>, data: seq<byte>)
      requires AtRest() && clusters != [] && Distinct(clusters) && AllClusters(v.g, clusters)
               && Elements(clusters) <= FreeSet(v.g, disk)
      requires |data| <= |clusters| * v.g.ClusterSize()
      modifies this`disk, this`seen, this`fatCache, this`fatDirty, this`freeCount
      ensures AtRest() && (freeCount.Some? <==> old(freeCount).Some?)
              && (old(CopiesEqual(v.g, disk)) ==> CopiesEqual(v.g, disk))
      ensures IsPut(v.g, old(disk), disk, clusters, data)
              && |FreeSet(v.g, disk)| == |FreeSet(v.g, old(disk))| - |clusters|
      ensures SeenWithin(v.g, Scope(Elements(clusters), Elements(clusters), old(disk)), old(seen), seen)
    {
      hide Valid, Only, Within, CopiesEqual, SeenWithin, FreeSet, IsPut, IsChain, Distinct, Elements, AllClusters,
        AllFrom2, Sectors, Chop, Pad;
      SoundGeometry();
      ghost var d, sc := disk, Scope(Elements(clusters), Elements(clusters), disk);
      WithinBase(v.g, sc);
      ClustersFrom2(v.g, clusters);
      ClusterBytes(v.g, |clusters|);
      WriteClusters(clusters, data, sc);
      ghost var d1, was := disk, seen;
      FreeSetSame(v.g, d, d1, Elements(clusters));
      Link(clusters, sc);
      SeenTrans(v.g, sc, old(seen), was, seen);
      PutHolds(v.g, d, d1, disk, clusters, data);
      PutTakes(v.g, d, disk, clusters, data);
    }

    /** Puts `data` in `count` new clusters, chained in the FAT. */
    method PutChain(count: nat, data: seq<byte>) returns (r: Result<seq<nat>>)
      requires AtRest() && 0 < count && |data| <= count * v.g.ClusterSize()
      modifies this`disk, this`seen, this`fatCache, this`fatDirty, this`freeCount, this`nextFree
      ensures AtRest() && (freeCount.Some? <==> old(freeCount).Some?)
              && (old(CopiesEqual(v.g, disk)) ==> CopiesEqual(v.g, disk))
      ensures r.Err? <==> |FreeSet(v.g, old(disk))| < count
      ensures r.Err? ==> r.error == NoSpace && disk == old(disk) && seen == old(seen)
      ensures r.Ok? ==>
              |r.value| == count && IsPut(v.g, old(disk), disk, r.value, data)
                && |FreeSet(v.g, disk)| == |FreeSet(v.g, old(disk))| - count
      ensures r.Ok? ==> SeenWithin(v.g, Scope(Elements(r.value), Elements(r.value), old(disk)), old(seen), seen)
    {
      hide Valid, CopiesEqual, SeenWithin, FreeSet, IsPut, Distinct, Elements, AllClusters;
      var clusters :- Allocate(count);
      FillChain(clusters, data);
      return Ok(clusters);
    }

    /** Puts `data` in new clusters, chained in the FAT, and returns the first (0 for none). */
    method WriteChain(data: seq<byte>) returns (r: Result<nat>, ghost ch: seq<nat>)
      requires AtRest()
      modifies this`disk, this`seen, this`fatCache, this`fatDirty, this`freeCount, this`nextFree
      ensures AtRest() && (freeCount.Some? <==> old(freeCount).Some?)
      ensures old(CopiesEqual(v.g, disk)) ==> CopiesEqual(v.g, disk)
      ensures v.g.sectorsPerCluster > 0 && (r.Err? <==> |FreeSet(v.g, old(disk))| < ClustersFor(v.g, |data|))
      ensures r.Err? ==> r.error == NoSpace && disk == old(disk) && seen == old(seen)
      ensures r.Ok? ==>
              IsNewChain(v.g, old(disk), disk, r.value, ch, data)
                && |FreeSet(v.g, disk)| == |FreeSet(v.g, old(disk))| - ClustersFor(v.g, |data|)
      ensures r.Ok? ==> SeenWithin(v.g, Scope(Elements(ch), Elements(ch), old(disk)), old(seen), seen)
    {
      hide Valid, Only, Within, CopiesEqual, SeenWithin, FreeSet, IsNewChain, IsPut, Elements, ClustersFor;
      SoundGeometry();
      ch := [];
      if data == [] {
        NoChain(v.g, disk);
        SeenRefl(v.g, Scope(Elements(ch), Elements(ch), disk), seen);
        NoClusters(v.g);
        return Ok(0), [];
      }
      ClustersHold(v.g, |data|);
      var put := PutChain(ClustersFor(v.g, |data|), data);
      if put.Err? {
        return Err(put.error), [];
      }
      NewChainHolds(v.g, old(disk), disk, put.value, data);
      return Ok(put.value[0]), put.value;
    }

    /** Writes back the sectors holding slots `lo..hi` of a directory. */
    method StoreDir(image: DirImage, lo: nat, hi: nat, ghost was: seq<Slot>)
      requires AtRest() && lo < hi <= |image.slots| == 16 * |image.sectors| && Distinct(image.sectors)
      requires forall i :: 0 <= i < |image.sectors| ==> !v.g.InFats(image.sectors[i])
      requires was == Slots(Blocks(disk, image.sectors)) && |was| == |image.slots|
      requires forall i :: 0 <= i < |was| && !(lo <= i < hi) ==> image.slots[i] == was[i]
      modifies this`disk, this`seen
      ensures AtRest() && FreeSet(v.g, disk) == FreeSet(v.g, old(disk))
              && (old(CopiesEqual(v.g, disk)) ==> CopiesEqual(v.g, disk))
      ensures Holds(old(disk), disk, image.sectors, image.slots)
      ensures old(seen) <= seen
              && forall s ::
                   s in seen ==>
                     s in old(seen)
                       || exists k ::
                            lo < 16 * k <= |was| && Holds(old(disk), s, image.sectors, Mixed(was, image.slots, k))
      ensures forall k :: lo < 16 * k < hi ==>
                exists s :: s in seen && Holds(old(disk), s, image.sectors, Mixed(was, image.slots, k))
    {
      hide Slots, Blocks, BlockOf, Holds, Mixed, Distinct, FreeSet, CopiesEqual;
      Regions(v.g);
      var index := lo / 16;
      var end := (hi + 15) / 16;
      HoldsItself(disk, image.sectors);
      assert Mixed(was, image.slots, index) == was;
      while index < end
        invariant lo / 16 <= index <= end && Valid()
        invariant Holds(old(disk), disk, image.sectors, Mixed(was, image.slots, index))
        invariant old(seen) <= seen
        invariant forall s ::
                    s in seen ==>
                      s in old(seen)
                        || exists k ::
                             lo < 16 * k <= |was| && Holds(old(disk), s, image.sectors, Mixed(was, image.slots, k))
        invariant forall k :: lo < 16 * k && k <= index ==>
                    exists s :: s in seen && Holds(old(disk), s, image.sectors, Mixed(was, image.slots, k))
      {
        StoreNext(old(disk), disk, image.sectors, was, image.slots, index);
        WriteBlock(image.sectors[index], BlockOf(image.slots, index));
        index := index + 1;
      }
      assert Mixed(was, image.slots, end) == image.slots;
      StoredOutside(v.g, old(disk), disk, image.sectors, image.slots);
      FreeSetStays(v.g, old(disk), disk);
      if CopiesEqual(v.g, old(disk)) {
        CopiesStay(v.g, old(disk), disk);
      }
    }

    /** Adds zeroed clusters to a directory's chain until it has `needed` free slots at its end, and
        returns where they start. */
    method GrowDir(dir: Dir, image: DirImage, needed: nat, ghost cat: Catalog)
      returns (r: Result<nat>, ghost cat': Catalog)
      requires AtRest() && WellFormed(v, disk, cat) && dir in cat.dirs && 0 < needed
      requires image.sectors == DirSectors(v, cat, dir) && image.slots == Slots(DirBlocks(v, disk, cat, dir))
      requires forall a: nat :: !IsPlace(image.slots, a, needed)
      modifies this`disk, this`seen, this`fatCache, this`fatDirty, this`freeCount, this`nextFree, image
      ensures AtRest() && (freeCount.Some? <==> old(freeCount).Some?)
              && (old(CopiesEqual(v.g, disk)) ==> CopiesEqual(v.g, disk))
      ensures r.Err? ==>
              disk == old(disk) && seen == old(seen)
                && r.error == (if HomeOf(v, dir).None? then DirectoryFull else NoSpace)
      ensures r.Err? <==> HomeOf(v, dir).None? || |FreeSet(v.g, old(disk))| < Growth(v.g, old(image.slots), needed)
      ensures r.Ok? ==> FreeChanged(v.g, old(disk), disk, Growth(v.g, old(image.slots), needed), {})
      ensures r.Ok? ==>
                && WellFormed(v, disk, cat') && SameListings(v, old(disk), cat, disk, cat') && FilesKept(v, cat, cat')
                && Alike(v, cat, old(disk), disk) && Intact(v, old(disk), disk)
                && image.sectors == DirSectors(v, cat', dir) && image.slots == Slots(DirBlocks(v, disk, cat', dir))
                && r.value == EndOf(old(image.slots)) <= |old(image.slots)| <= |image.slots|
                   && image.slots[..|old(image.slots)|] == old(image.slots)
                && IsPlace(image.slots, r.value, needed)
      ensures SeenIntact(v, old(disk), old(seen), seen)
    {
      hide Valid, WellFormed, FatEntry, FreeSet, Only, CopiesEqual, Walk, Sectors, Slots, DirBlocks, DirSectors, Alike,
        Intact, IsPlace, IsPut, EndOf, SeenIntact, SeenWithin, FilesKept, SameListings, ReadBlock, EndSlots, Elements,
        Tidy;
      SoundGeometry();
      SeenNothing(v, disk, seen);
      cat' := cat;
      if dir.Root? && v.g.root.Fixed? {
        return Err(DirectoryFull), cat;
      }
      var first := if dir.Root? then v.g.root.first else dir.first;
      HomeChain(v, disk, cat, dir);
      var walked := Chain(first);
      var chain := walked.value;
      var end := FindEnd(image.slots);
      DirIsTidy(v, disk, cat, dir);
      GrownPlace(image.slots, needed, 0);
      // Free slots at the end already count towards what is needed.
      var missing, perCluster := needed - (|image.slots| - end), v.g.ClusterSize() / DIR_ENTRY_SIZE;
      var count := (missing + perCluster - 1) / perCluster;
      CeilHolds(missing, perCluster);
      var put := PutChain(count, Zeros(count * v.g.ClusterSize()));
      if put.Err? {
        return Err(put.error), cat;
      }
      var clusters := put.value;
      ghost var d, d1, mid, h := old(disk), disk, seen, first;
      GrowReady(v, cat, h, clusters, d, d1);
      SeenUnowned(v, cat, Scope(Elements(clusters), Elements(clusters), d), old(seen), mid);
      // Hook the new clusters onto the directory's last one.
      Hook(chain[|chain| - 1], clusters[0]);
      GrowStored(v, cat, dir, h, clusters, d, d1, disk);
      PutChanged(v.g, d, d1, disk, clusters, Zeros(count * v.g.ClusterSize()));
      SeenHooked(v, cat, dir, h, clusters, d, d1, old(seen), mid, seen);
      TailKeepsFiles(v, cat, dir, h, clusters);
      GrownSlots(v.g, clusters, perCluster);
      GrownPlace(image.slots, needed, 16 * |Sectors(v.g, clusters)|);
      image.sectors := image.sectors + Sectors(v.g, clusters);
      image.slots := image.slots + EndSlots(16 * |Sectors(v.g, clusters)|);
      return Ok(end), WithTail(cat, h, clusters);
    }

    /** Finds a place for `count` new slots in a directory, growing it if it is full (or failing, for
        FAT16's fixed root). */
    method FindPlace(dir: Dir, image: DirImage, count: nat, ghost cat: Catalog)
      returns (r: Result<nat>, ghost cat': Catalog)
      requires AtRest() && WellFormed(v, disk, cat) && dir in cat.dirs && 0 < count
      requires image.sectors == DirSectors(v, cat, dir) && image.slots == Slots(DirBlocks(v, disk, cat, dir))
      modifies this`disk, this`seen, this`fatCache, this`fatDirty, this`freeCount, this`nextFree, image
      ensures AtRest() && (freeCount.Some? <==> old(freeCount).Some?)
              && (old(CopiesEqual(v.g, disk)) ==> CopiesEqual(v.g, disk))
      ensures r.Err? ==> disk == old(disk) && seen == old(seen)
      ensures AddFails(v.g, HomeOf(v, dir), old(image.slots), count, |FreeSet(v.g, old(disk))|)
              == if r.Err? then Some(r.error) else None
      ensures r.Ok? ==> FreeChanged(v.g, old(disk), disk, GrowthFor(v.g, old(image.slots), count), {})
      ensures r.Ok? ==>
                && IsReady(v, cat, old(disk), cat', disk)
                && image.sectors == DirSectors(v, cat', dir) && image.slots == Slots(DirBlocks(v, disk, cat', dir))
                && r.value <= |old(image.slots)| <= |image.slots|
                   && image.slots[..|old(image.slots)|] == old(image.slots)
                && IsChosen(old(image.slots), count, r.value) && IsPlace(image.slots, r.value, count)
      ensures SeenIntact(v, old(disk), old(seen), seen)
    {
      hide Valid, WellFormed, FreeSet, CopiesEqual, Slots, DirBlocks, DirSectors, Alike, IsPlace, SeenIntact, FilesKept,
        SameListings, ReadBlock, Tidy;
      DirIsTidy(v, disk, cat, dir);
      var free := image.FreeRun(count);
      if free.Some? {
        PlaceFits(image.slots, free.value, count);
        ReadyItself(v, cat, disk);
        SeenNothing(v, disk, seen);
        FreeUnchanged(v.g, disk, disk);
        return Ok(free.value), cat;
      }
      r, cat' := GrowDir(dir, image, count, cat);
      if r.Ok? {
        IntactBoot(v, old(disk), disk);
      }
    }

    /** The slots of a new entry for `name`, under an alias no other entry has if it needs one. */
    method MakeSlots(image: DirImage, name: Name, attr: byte, x: Extent)
      returns (entries: seq<Slot>, ghost alias: seq<byte>)
      requires |image.slots| < MAX_ALIAS && CheckName(name) && x.Fits(v.g.fatType) && stamp.Fits()
      ensures IsAlias(alias) && |name| <= MAX_NAME && x.Fits(Fat32) && entries == NewSlots(name, alias, attr, x, stamp)
      ensures |entries| == EntrySize(name)
      ensures !IsExactShort(name) ==>
              forall i :: IsInUse(image.slots, i) && !IsLong(image.slots[i]) ==> image.slots[i][..11] != alias
    {
      hide CheckName, ShortEntry, LongSlots, Checksum, Candidate, Pieces, IsExactShort;
      NoZeros(name);
      FewPieces(name);
      if IsExactShort(name) {
        alias := SomeAlias();
        return [ShortEntry(ExactShort(name), CaseFlags(name), attr, x, stamp)], alias;
      }
      var taken := image.ShortNames();
      var short, tries := Alias(name, taken);
      CandidateIsAlias(name, tries);
      return LongSlots(name, Checksum(short)) + [ShortEntry(short, 0, attr, x, stamp)], short;
    }

    /** Adds entries for `name` to a directory. */
    method AddEntry(dir: Dir, image: DirImage, name: Name, attr: byte, x: Extent, ghost cat: Catalog)
      returns (r: Result<()>)
      requires AtRest() && WellFormed(v, disk, cat) && dir in cat.dirs && |image.slots| < MAX_ALIAS
      requires image.sectors == DirSectors(v, cat, dir) && image.slots == Slots(DirBlocks(v, disk, cat, dir))
      requires CheckName(name) && IsText(name) && (attr == ATTR_DIRECTORY || attr == ATTR_ARCHIVE)
               && x.Fits(v.g.fatType)
      requires PointsWell(v, cat, NewEntry(name, attr, x, stamp)) && Unreferenced(v, disk, cat, x.first)
      modifies this`disk, this`seen, this`fatCache, this`fatDirty, this`freeCount, this`nextFree, image
      ensures AtRest() && (freeCount.Some? <==> old(freeCount).Some?)
              && (old(CopiesEqual(v.g, disk)) ==> CopiesEqual(v.g, disk))
      ensures r.Err? ==> disk == old(disk) && seen == old(seen)
      ensures AddFails(v.g, HomeOf(v, dir), old(image.slots), EntrySize(name), |FreeSet(v.g, old(disk))|)
              == if r.Err? then Some(r.error) else None
      ensures r.Ok? ==> FreeChanged(v.g, old(disk), disk, GrowthFor(v.g, old(image.slots), EntrySize(name)), {})
      ensures var e, kept := NewEntry(name, attr, x, stamp), old(IsKept(v, disk, cat, dir, name));
              && (r.Ok? ==> Added(v, cat, dir, name, e, kept, old(disk), disk))
              && SeenAdded(v, cat, dir, name, e, kept, old(disk), old(seen), seen)
    {
      hide Valid, WellFormed, FreeSet, CopiesEqual, Slots, DirBlocks, DirSectors, AllFree, IsEnd, SeenIntact, ReadBlock,
        Alike, FilesKept, DirEntries, IsKept, Added, PointsWell, Unreferenced, CheckName, IsText, NewSlots, IsChosen,
        Holds, Mixed, Distinct, NewEntry, SeenAdded, EntrySize, IsAlias, ReadsBack, ScanTo, AddFails, FreeChanged,
        GrowthFor;
      StampFits();
      ghost var d := disk;
      var entries, alias := MakeSlots(image, name, attr, x);
      var place, cat' := FindPlace(dir, image, |entries|, cat);
      if place.Err? {
        SeenNone(v, cat, dir, name, NewEntry(name, attr, x, stamp), IsKept(v, d, cat, dir, name), d, seen);
        return Err(place.error);
      }
      var at := place.value;
      KeptThere(v, d, cat, dir, name, image.slots, at);
      ghost var mid, between, was := disk, seen, image.slots;
      DirIsStorable(v, mid, cat', dir);
      image.slots := Patch(image.slots, at, entries);
      StoreDir(image, at, at + |entries|, was);
      SeenStored(v, cat, d, cat', mid, dir, at, name, alias, attr, x, stamp, old(seen), between, seen);
      AddedWhole(v, cat, d, cat', mid, dir, disk, at, name, alias, attr, x, stamp);
      FreeUnchanged(v.g, mid, disk);
      FreeTwice(v.g, d, mid, disk, GrowthFor(v.g, old(image.slots), EntrySize(name)), 0);
      return Ok(());
    }

    /** Points the entry of the file `name` finds at `x`, then lets its old chain go. */
    method ReplaceEntry(dir: Dir, image: DirImage, name: Name, located: Located, x: Extent, ghost cat: Catalog,
                        ghost m: nat) returns (r: Result<()>)
      requires AtRest() && CanReplace(v, disk, cat, dir, name, m, x) && located == DirEntries(v, disk, cat, dir)[m]
      requires image.sectors == DirSectors(v, cat, dir) && image.slots == Slots(DirBlocks(v, disk, cat, dir))
      modifies this`disk, this`seen, this`fatCache, this`fatDirty, this`freeCount, this`nextFree, image
      ensures AtRest() && (freeCount.Some? <==> old(freeCount).Some?)
              && (old(CopiesEqual(v.g, disk)) ==> CopiesEqual(v.g, disk))
      ensures var bytes := FileBytes(v.g, old(disk), x.first, x.size);
              r == Ok(()) && NowReads(v, dir, name, bytes, old(disk), disk)
                && SeenNow(v, dir, name, bytes, old(disk), old(seen), seen)
      ensures FreeSet(v.g, disk) == FreeSet(v.g, old(disk)) + ChainOf(cat, located.entry.first)
    {
      hide Valid, WellFormed, FreeSet, CopiesEqual, Slots, DirBlocks, DirSectors, DirEntries, NowReads, FileBytes,
        SeenNow, SeenIntact, Intact, Holds, Mixed, Unreferenced, IsFileChain, Walk, Elements, Within, SeenWithin,
        Distinct, SetModified, SetExtent, Find, ReadBlock;
      StampFits();
      EntrySlot(v, disk, cat, dir, m);
      TargetChain(v, disk, cat, dir, m);
      DirIsStorable(v, disk, cat, dir);
      ghost var d, was, bytes := disk, image.slots, FileBytes(v.g, disk, x.first, x.size);
      var slot := located.hi - 1;
      image.slots := ReplacedSlots(image.slots, slot, x, stamp);
      StoreDir(image, slot, slot + 1, was);
      ReplacedState(v, d, cat, dir, name, m, slot, x, stamp, disk);
      SeenReplaced(v, d, cat, dir, name, m, slot, x, stamp, old(seen), seen);
      ghost var d2, mid, sc := disk, seen, FreeScope(cat, located.entry.first, disk);
      WithinBase(v.g, sc);
      FollowsOn(v, cat, d2, located.entry.first);
      r := FreeChain(located.entry.first, sc);
      SeenFreed(v, cat, located.entry.first, d2, mid, seen, disk);
      SeenNowThenIntact(v, dir, name, bytes, d, d2, old(seen), mid, seen);
      NowThenIntact(v, dir, name, bytes, d, d2, disk);
    }

    /** Adds an entry for the new chain `ch`, or gives the chain back. */
    method AddOrFree(dir: Dir, image: DirImage, name: Name, attr: byte, x: Extent, ghost cat: Catalog, ghost d: Disk,
                     ghost ch: seq<nat>, ghost cat1: Catalog)
      returns (r: Result<()>)
      requires AtRest() && WellFormed(v, disk, cat1) && dir in cat1.dirs && |image.slots| < MAX_ALIAS
      requires image.sectors == DirSectors(v, cat1, dir) && image.slots == Slots(DirBlocks(v, disk, cat1, dir))
      requires CheckName(name) && IsText(name) && (attr == ATTR_DIRECTORY || attr == ATTR_ARCHIVE)
               && x.Fits(v.g.fatType)
      requires PointsWell(v, cat1, NewEntry(name, attr, x, stamp)) && Unreferenced(v, disk, cat1, x.first)
      requires WellFormed(v, d, cat) && NoneOwned(cat, Elements(ch)) && Only(v.g, Elements(ch), Elements(ch), d, disk)
      requires FreeSet(v.g, disk) + Elements(ch) == FreeSet(v.g, d)
      requires if x.first == 0 then ch == [] else x.first in cat1.chains && cat1.chains[x.first] == ch
      modifies this`disk, this`seen, this`fatCache, this`fatDirty, this`freeCount, this`nextFree, image
      ensures AtRest() && (freeCount.Some? <==> old(freeCount).Some?)
              && (old(CopiesEqual(v.g, disk)) ==> CopiesEqual(v.g, disk))
      ensures AddFails(v.g, HomeOf(v, dir), old(image.slots), EntrySize(name), |FreeSet(v.g, old(disk))|)
              == if r.Err? then Some(r.error) else None
      ensures r.Ok? ==> FreeChanged(v.g, old(disk), disk, GrowthFor(v.g, old(image.slots), EntrySize(name)), {})
      ensures r.Err? ==>
                && FreeSet(v.g, disk) == FreeSet(v.g, d)
                && Intact(v, d, disk) && SeenIntact(v, d, old(seen), seen)
      ensures r.Ok? ==>
                var e, kept := NewEntry(name, attr, x, stamp), old(IsKept(v, disk, cat1, dir, name));
                && Added(v, cat1, dir, name, e, kept, old(disk), disk)
                && SeenAdded(v, cat1, dir, name, e, kept, old(disk), old(seen), seen)
    {
      hide Valid, WellFormed, FreeSet, CopiesEqual, Slots, DirBlocks, DirSectors, Added, SeenAdded, IsKept, NewEntry,
        PointsWell, Unreferenced, CheckName, IsText, Intact, SeenIntact, SeenWithin, NoneOwned, Only, Elements, Walk,
        AddFails, FreeChanged, GrowthFor;
      ghost var d1 := disk;
      r := AddEntry(dir, image, name, attr, x, cat1);
      if r.Err? {
        // Nothing points at the new chain; give it back.
        ghost var sc := Scope(Elements(ch), Elements(ch), d);
        FollowsOn(v, cat1, d1, x.first);
        NoElements(v.g);
        var freed := FreeChain(x.first, sc);
        GivenBack(v, cat, d, Elements(ch), old(seen), seen, disk);
      }
    }

    /** Reads a directory there is, with its entries. */
    method Open(dir: Dir, ghost cat: Catalog) returns (image: DirImage, entries: seq<Located>)
      requires Valid() && fatDirty.None? && WellFormed(v, disk, cat) && dir in cat.dirs
      modifies this`fatCache
      ensures Valid() && fresh(image) && image.sectors == DirSectors(v, cat, dir)
              && image.slots == Slots(DirBlocks(v, disk, cat, dir))
      ensures entries == DirEntries(v, disk, cat, dir) && ListDir(v, disk, dir) == Ok(entries)
    {
      hide Valid, WellFormed, Slots, DirSectors, Entries, FindSectors;
      WellFormedIsLaid(v, disk, cat);
      ListsDir(v, disk, cat, dir);
      var loaded := LoadDir(dir);
      image := loaded.value;
      entries := ParseLocated(v.g.fatType, image.slots);
    }

    method FindEntry(entries: seq<Located>, name: Name) returns (i: nat)
      ensures i == Find(v, entries, name)
    {
      i := 0;
      while i < |entries| && v.fold(entries[i].entry.name) != v.fold(name)
        invariant 0 <= i <= Find(v, entries, name)
      {
        i := i + 1;
      }
    }

    /** Writes the file's chain and its entry, once nothing speaks against it. */
    method PutFile(dir: Dir, image: DirImage, entries: seq<Located>, i: nat, name: Name, data: seq<byte>,
                   ghost cat: Catalog) returns (r: Result<()>)
      requires AtRest() && WellFormed(v, disk, cat) && dir in cat.dirs && |image.slots| < MAX_ALIAS
      requires image.sectors == DirSectors(v, cat, dir) && image.slots == Slots(DirBlocks(v, disk, cat, dir))
               && entries == DirEntries(v, disk, cat, dir)
      requires CheckName(name) && IsText(name) && |data| < 0x1_0000_0000 && i == Find(v, entries, name)
               && (i < |entries| ==> entries[i].entry.kind == File)
      modifies this`disk, this`seen, this`fatCache, this`fatDirty, this`freeCount, this`nextFree, image
      ensures AtRest() && (freeCount.Some? <==> old(freeCount).Some?)
              && (old(CopiesEqual(v.g, disk)) ==> CopiesEqual(v.g, disk))
      ensures v.g.sectorsPerCluster > 0
      ensures PutFails(v, old(disk), cat, dir, name, |data|, i < |entries|) == if r.Err? then Some(r.error) else None
      ensures r.Ok? ==>
                var freed := if i < |entries| then ChainOf(cat, entries[i].entry.first) else {};
                FreeChanged(v.g, old(disk), disk, old(PutTaken(v, disk, cat, dir, name, |data|, i < |entries|)), freed)
      ensures r.Err? ==>
                && FreeSet(v.g, disk) == FreeSet(v.g, old(disk))
                && Intact(v, old(disk), disk) && SeenIntact(v, old(disk), old(seen), seen)
      ensures var kept := i < |entries| || old(IsKept(v, disk, cat, dir, name));
              r.Ok? ==>
                && IntactButOne(v, dir, old(disk), disk) && (kept ==> NowReads(v, dir, name, Ok(data), old(disk), disk))
                && SeenWritten(v, dir, name, Ok(data), kept, old(disk), old(seen), seen)
    {
      hide Valid, WellFormed, FreeSet, CopiesEqual, Slots, DirBlocks, DirSectors, Find, IsNewChain, SeenWithin,
        Elements, IntactButOne, CheckName, IsText, Intact, SeenIntact, NowReads, SeenWritten, IsKept, SeenAdded, Added,
        SeenNow, Alike, Unreferenced, IsFileChain, Consistent, FileBytes, NewEntry, NoneOwned, Only, IsChain, AddFails,
        ClustersFor, EntrySize;
      SoundGeometry();
      ghost var d, seen0 := disk, seen;
      SelfIntact(v, cat, d, seen);
      var chain, ch := WriteChain(data);
      if chain.Err? {
        return Err(chain.error);
      }
      var first := chain.value;
      ghost var d1, cat1, mid := disk, WithNew(cat, ch), seen;
      NewChainReady(v, cat, d, d1, first, ch, data);
      NewChainFacts(v, cat, d, d1, first, ch, data);
      SeenUnowned(v, cat, Scope(Elements(ch), Elements(ch), d), seen0, mid);
      NewChainChanged(v.g, d, d1, first, ch, data);
      var x := Extent(first, |data|);
      if i < |entries| {
        SameEntriesThere(v, d, cat, d1, cat1, dir);
        r := ReplaceEntry(dir, image, name, entries[i], x, cat1, i);
        SeenRewritten(v, cat, d, cat1, d1, dir, name, first, Ok(data), true, seen0, mid, seen, disk);
        NowButOne(v, dir, name, Ok(data), d, disk);
        ReplacedFrees(v, d, cat, dir, i, ch);
        FreeThenFreed(v.g, d, d1, disk, ClustersFor(v.g, |data|), ChainOf(cat, entries[i].entry.first));
      } else {
        NewFilePoints(v, cat1, name, x, stamp);
        r := AddOrFree(dir, image, name, ATTR_ARCHIVE, x, cat, d, ch, cat1);
        if r.Ok? {
          SeenCreated(v, cat, d, cat1, d1, dir, name, x, stamp, seen0, mid, seen);
          AddedIsRead(v, cat, d, cat1, d1, dir, name, x, stamp, disk);
          FreeTwice(v.g, d, d1, disk, ClustersFor(v.g, |data|), GrowthFor(v.g, old(image.slots), EntrySize(name)));
        } else {
          SeenIntactTrans(v, d, seen0, mid, seen);
        }
      }
    }

    /** Brings FSInfo up to date after an operation: nothing else changes. */
    method Finish(ghost cat: Catalog)
      requires AtRest() && WellFormed(v, disk, cat)
      modifies this`disk, this`seen
      ensures AtRest() && FreeSet(v.g, disk) == FreeSet(v.g, old(disk))
              && (old(CopiesEqual(v.g, disk)) ==> CopiesEqual(v.g, disk))
      ensures Intact(v, old(disk), disk) && SeenIntact(v, old(disk), old(seen), seen)
      ensures freeCount.Some? && v.g.fsinfo.Some? ==>
              InfoHolds(ReadBlock(disk, v.g.fsinfo.value), freeCount.value, nextFree)
    {
      hide Valid, WellFormed, FreeSet, CopiesEqual, Only, Intact, SeenIntact, NoneOwned, SeenWithin, InfoHolds,
        ReadBlock;
      ghost var sc := Scope({}, {}, disk);
      WithinBase(v.g, sc);
      FinishChange(sc);
      FreeSetSame(v.g, old(disk), disk, {});
      NoneIsOwned(cat);
      GivenBack(v, cat, old(disk), {}, old(seen), seen, disk);
    }

    method WriteFileInner(path: seq<Name>, name: Name, data: seq<byte>, ghost cat: Catalog) returns (r: Result<()>)
      requires AtRest() && WellFormed(v, disk, cat) && DirsFit(v, cat, MAX_ALIAS) && IsText(name)
      modifies this`disk, this`seen, this`fatCache, this`fatDirty, this`freeCount, this`nextFree
      ensures AtRest() && (old(CopiesEqual(v.g, disk)) ==> CopiesEqual(v.g, disk))
      ensures v.g.sectorsPerCluster > 0 && Outcome(WriteFails(v, old(disk), cat, path, name, data), r)
      ensures r.Err? ==>
              Intact(v, old(disk), disk) && SeenIntact(v, old(disk), old(seen), seen)
                && FreeSet(v.g, disk) == FreeSet(v.g, old(disk))
      ensures r.Ok? ==>
                && Resolve(v, old(disk), Root, path).Ok? && Consistent(v, disk)
                && var dir := Resolve(v, old(disk), Root, path).value;
                   var kept := old(FileKept(v, disk, cat, dir, name));
                   && IntactButOne(v, dir, old(disk), disk)
                      && SeenWritten(v, dir, name, Ok(data), kept, old(disk), old(seen), seen)
                   && (kept ==> NowReads(v, dir, name, Ok(data), old(disk), disk))
                   && FreeChanged(v.g, old(disk), disk, old(WriteTaken(v, disk, cat, dir, name, |data|)),
                                  old(WriteFreed(v, disk, cat, dir, name)))
    {
      hide Valid, WellFormed, FreeSet, CopiesEqual, Slots, DirBlocks, DirSectors, DirEntries, CheckName, IsText, Intact,
        SeenIntact, NowReads, SeenWritten, IsKept, FileKept, Consistent, ListDir, Find, Resolve, PutFails;
      SoundGeometry();
      SelfIntact(v, cat, disk, seen);
      if |data| >= 0x1_0000_0000 {
        return Err(TooBig);
      }
      if !CheckName(name) {
        return Err(InvalidName);
      }
      var dir :- FindDir(path);
      RootIsThere(v, disk, cat);
      ResolvesToDir(v, disk, cat, Root, path);
      var image, entries := Open(dir, cat);
      SlotsFit(v, disk, cat, dir);
      var i := FindEntry(entries, name);
      if i < |entries| && entries[i].entry.kind == Directory {
        return Err(NotAFile);
      }
      FileKeptIs(v, disk, cat, dir, name);
      BeginChange();
      r := PutFile(dir, image, entries, i, name, data, cat);
    }

    /** Creates the file `name` in the directory at `path` with `data` in it, or replaces what an
        existing file holds. */
    method WriteFile(path: seq<Name>, name: Name, data: seq<byte>, ghost cat: Catalog) returns (r: Result<()>)
      requires AtRest() && WellFormed(v, disk, cat) && DirsFit(v, cat, MAX_ALIAS) && IsText(name)
      modifies this`disk, this`seen, this`fatCache, this`fatDirty, this`freeCount, this`nextFree
      ensures AtRest() && (old(CopiesEqual(v.g, disk)) ==> CopiesEqual(v.g, disk))
      // What it is refused for.
      ensures v.g.sectorsPerCluster > 0 && Outcome(WriteFails(v, old(disk), cat, path, name, data), r)
      // A failure leaves everything as it was, and leaks nothing.
      ensures r.Err? ==>
              Intact(v, old(disk), disk) && SeenIntact(v, old(disk), old(seen), seen)
                && FreeSet(v.g, disk) == FreeSet(v.g, old(disk))
      // Every state on the way has all files as before, or this one wholly written and the others as before.
      ensures r.Ok? ==>
                && Resolve(v, old(disk), Root, path).Ok? && Consistent(v, disk)
                && var dir := Resolve(v, old(disk), Root, path).value;
                   var kept := old(FileKept(v, disk, cat, dir, name));
                   && IntactButOne(v, dir, old(disk), disk)
                      && SeenWritten(v, dir, name, Ok(data), kept, old(disk), old(seen), seen)
                   && (kept ==>
                       NowReads(v, dir, name, Ok(data), old(disk), disk) && ReadFile(v, disk, path, name) == Ok(data))
                   // The clusters that changed hands: those of the bytes, of a directory that grew, and of the file
                   // replaced.
                   && FreeChanged(v.g, old(disk), disk, old(WriteTaken(v, disk, cat, dir, name, |data|)),
                                  old(WriteFreed(v, disk, cat, dir, name)))
      ensures freeCount.Some? && v.g.fsinfo.Some? ==>
              InfoHolds(ReadBlock(disk, v.g.fsinfo.value), freeCount.value, nextFree)
    {
      hide Valid, WellFormed, FreeSet, CopiesEqual, CheckName, IsText, Intact, SeenIntact, NowReads, SeenWritten,
        FileKept, Consistent, Resolve, ReadFile, WriteFails, ReadBlock, InfoHolds, DirsFit;
      r := WriteFileInner(path, name, data, cat);
      ghost var d, d', mid := old(disk), disk, seen;
      if r.Err? {
        ghost var now := StillWellFormed(v, d, d');
        Finish(now);
        IntactTrans(v, d, d', old(seen), mid, seen, disk);
      } else {
        ghost var now := ItsCatalog(v, d');
        Finish(now);
        ghost var dir := Resolve(v, d, Root, path).value;
        ghost var kept := FileKept(v, d, cat, dir, name);
        SeenWrittenThenIntact(v, dir, name, Ok(data), kept, d, d', old(seen), mid, seen, disk);
        FreeStays(v.g, d, d', disk, WriteTaken(v, d, cat, dir, name, |data|), WriteFreed(v, d, cat, dir, name));
        if kept {
          NowReadsPath(v, dir, name, Ok(data), d, disk, path);
        }
      }
    }

    /** Fills a new directory's cluster and adds its entry, once nothing speaks against it. */
    method PutDir(dir: Dir, image: DirImage, name: Name, ghost cat: Catalog) returns (r: Result<()>)
      requires AtRest() && WellFormed(v, disk, cat) && dir in cat.dirs && |image.slots| < MAX_ALIAS
      requires image.sectors == DirSectors(v, cat, dir) && image.slots == Slots(DirBlocks(v, disk, cat, dir))
               && CheckName(name) && IsText(name)
      modifies this`disk, this`seen, this`fatCache, this`fatDirty, this`freeCount, this`nextFree, image
      ensures AtRest() && (old(CopiesEqual(v.g, disk)) ==> CopiesEqual(v.g, disk))
      ensures MakeFails(v, old(disk), cat, dir, name) == if r.Err? then Some(r.error) else None
      ensures r.Ok? ==> FreeChanged(v.g, old(disk), disk, old(MakeTaken(v, disk, cat, dir, name)), {})
      ensures r.Err? ==>
                && FreeSet(v.g, disk) == FreeSet(v.g, old(disk))
                && Intact(v, old(disk), disk) && SeenIntact(v, old(disk), old(seen), seen)
      ensures var kept := old(IsKept(v, disk, cat, dir, name));
              r.Ok? ==>
                && IntactButOne(v, dir, old(disk), disk) && (kept ==> DirMade(v, dir, name, old(disk), disk))
                && SeenMade(v, dir, name, kept, old(disk), old(seen), seen)
    {
      hide Valid, WellFormed, FreeSet, CopiesEqual, Slots, DirBlocks, DirSectors, IsPut, SeenWithin, CheckName, IsText,
        IntactButOne, Intact, SeenIntact, DirMade, SeenMade, IsKept, SeenAdded, Added, Alike, Unreferenced, Consistent,
        NewEntry, NoneOwned, Only, ListDir, DotSlots, Join, Distinct, AllClusters, Elements, AddFails, EntrySize;
      SoundGeometry();
      StampFits();
      ghost var d, seen0 := disk, seen;
      SelfIntact(v, cat, d, seen);
      var free := Allocate(1);
      if free.Err? {
        return Err(free.error);
      }
      var cluster := free.value[0];
      var parent := if dir.Root? then 0 else dir.first;
      DirFits(v, disk, cat, dir);
      OneCluster(v.g, free.value);
      FillChain(free.value, Join(DotSlots(cluster, parent, stamp)));
      ghost var d1, cat1, mid := disk, WithNewDir(cat, cluster), seen;
      NewDirReady(v, cat, d, d1, cluster, parent, stamp);
      SeenUnowned(v, cat, Scope({cluster}, {cluster}, d), seen0, mid);
      NewDirPoints(v, cat, cluster, name, stamp);
      PutFacts(v.g, d, d1, [cluster], Join(DotSlots(cluster, parent, stamp)));
      PutChanged(v.g, d, d1, d1, [cluster], Join(DotSlots(cluster, parent, stamp)));
      r := AddOrFree(dir, image, name, ATTR_DIRECTORY, Extent(cluster, 0), cat, d, [cluster], cat1);
      if r.Ok? {
        SeenDirAdded(v, cat, d, cat1, d1, dir, name, cluster, stamp, seen0, mid, seen);
        AddedIsMade(v, cat, d, cat1, d1, dir, name, cluster, stamp, disk);
        FreeTwice(v.g, d, d1, disk, 1, GrowthFor(v.g, old(image.slots), EntrySize(name)));
      } else {
        SeenIntactTrans(v, d, seen0, mid, seen);
      }
    }

    method CreateDirInner(path: seq<Name>, name: Name, ghost cat: Catalog) returns (r: Result<()>)
      requires AtRest() && WellFormed(v, disk, cat) && DirsFit(v, cat, MAX_ALIAS) && IsText(name)
      modifies this`disk, this`seen, this`fatCache, this`fatDirty, this`freeCount, this`nextFree
      ensures AtRest() && (old(CopiesEqual(v.g, disk)) ==> CopiesEqual(v.g, disk))
      ensures Outcome(CreateFails(v, old(disk), cat, path, name), r)
      ensures r.Err? ==>
              Intact(v, old(disk), disk) && SeenIntact(v, old(disk), old(seen), seen)
                && FreeSet(v.g, disk) == FreeSet(v.g, old(disk))
      ensures r.Ok? ==>
                && Resolve(v, old(disk), Root, path).Ok? && Consistent(v, disk)
                && var dir := Resolve(v, old(disk), Root, path).value;
                   var kept := old(FileKept(v, disk, cat, dir, name));
                   && IntactButOne(v, dir, old(disk), disk) && SeenMade(v, dir, name, kept, old(disk), old(seen), seen)
                   && (kept ==> DirMade(v, dir, name, old(disk), disk))
                   && FreeChanged(v.g, old(disk), disk, old(MakeTaken(v, disk, cat, dir, name)), {})
    {
      hide Valid, WellFormed, FreeSet, CopiesEqual, Slots, DirBlocks, DirSectors, DirEntries, CheckName, IsText, Intact,
        SeenIntact, DirMade, SeenMade, IsKept, FileKept, Consistent, ListDir, Find, Resolve, MakeFails;
      SelfIntact(v, cat, disk, seen);
      if !CheckName(name) {
        return Err(InvalidName);
      }
      var dir :- FindDir(path);
      RootIsThere(v, disk, cat);
      ResolvesToDir(v, disk, cat, Root, path);
      var image, entries := Open(dir, cat);
      SlotsFit(v, disk, cat, dir);
      var i := FindEntry(entries, name);
      if i < |entries| {
        return Err(AlreadyExists);
      }
      FileKeptIs(v, disk, cat, dir, name);
      BeginChange();
      r := PutDir(dir, image, name, cat);
    }

    /** Makes an empty directory `name` in the directory at `path`. */
    method CreateDir(path: seq<Name>, name: Name, ghost cat: Catalog) returns (r: Result<()>)
      requires AtRest() && WellFormed(v, disk, cat) && DirsFit(v, cat, MAX_ALIAS) && IsText(name)
      modifies this`disk, this`seen, this`fatCache, this`fatDirty, this`freeCount, this`nextFree
      ensures AtRest() && (old(CopiesEqual(v.g, disk)) ==> CopiesEqual(v.g, disk))
      ensures Outcome(CreateFails(v, old(disk), cat, path, name), r)
      ensures r.Err? ==>
              Intact(v, old(disk), disk) && SeenIntact(v, old(disk), old(seen), seen)
                && FreeSet(v.g, disk) == FreeSet(v.g, old(disk))
      ensures r.Ok? ==>
                && Resolve(v, old(disk), Root, path).Ok? && Consistent(v, disk)
                && var dir := Resolve(v, old(disk), Root, path).value;
                   var kept := old(FileKept(v, disk, cat, dir, name));
                   && IntactButOne(v, dir, old(disk), disk) && SeenMade(v, dir, name, kept, old(disk), old(seen), seen)
                   && (kept ==> DirMade(v, dir, name, old(disk), disk) && ReadDir(v, disk, path + [name]) == Ok([]))
                   && FreeChanged(v.g, old(disk), disk, old(MakeTaken(v, disk, cat, dir, name)), {})
      ensures freeCount.Some? && v.g.fsinfo.Some? ==>
              InfoHolds(ReadBlock(disk, v.g.fsinfo.value), freeCount.value, nextFree)
    {
      hide Valid, WellFormed, FreeSet, CopiesEqual, CheckName, IsText, Intact, SeenIntact, SeenMade, FileKept,
        Consistent, Resolve, ReadDir, CreateFails, ReadBlock, InfoHolds, DirsFit, IntactBut;
      r := CreateDirInner(path, name, cat);
      ghost var d, d', mid := old(disk), disk, seen;
      if r.Err? {
        ghost var now := StillWellFormed(v, d, d');
        Finish(now);
        IntactTrans(v, d, d', old(seen), mid, seen, disk);
      } else {
        ghost var now := ItsCatalog(v, d');
        Finish(now);
        ghost var dir := Resolve(v, d, Root, path).value;
        SeenMadeThenIntact(v, dir, name, FileKept(v, d, cat, dir, name), d, d', old(seen), mid, seen, disk);
        ButOneConsistent(v, dir, d, disk);
        FreeStays(v.g, d, d', disk, MakeTaken(v, d, cat, dir, name), {});
      }
    }

    /** Marks the slots of what `name` finds deleted, then frees its chain. */
    method DeleteEntry(dir: Dir, image: DirImage, name: Name, located: Located, ghost cat: Catalog, ghost m: nat)
      returns (r: Result<()>)
      requires AtRest() && CanRemove(v, disk, cat, dir, name, m) && located == DirEntries(v, disk, cat, dir)[m]
      requires image.sectors == DirSectors(v, cat, dir) && image.slots == Slots(DirBlocks(v, disk, cat, dir))
               && located.lo < located.hi <= |image.slots|
      modifies this`disk, this`seen, this`fatCache, this`fatDirty, this`freeCount, this`nextFree, image
      ensures AtRest() && (old(CopiesEqual(v.g, disk)) ==> CopiesEqual(v.g, disk))
      ensures r == Ok(()) && FreeSet(v.g, disk) == FreeSet(v.g, old(disk)) + ChainOf(cat, located.entry.first)
      ensures old(HasEntry(v, disk, cat, dir, m))
      ensures var x := old(RemovalOf(v, disk, cat, dir, name, m));
              Gone(v, x, old(disk), disk) && SeenRemoved(v, x, old(disk), old(seen), seen)
    {
      hide Valid, WellFormed, FreeSet, CopiesEqual, Slots, DirBlocks, DirSectors, DirEntries, SeenIntact, Intact, Holds,
        Mixed, Unreferenced, IsFileChain, Walk, Elements, Within, SeenWithin, Distinct, Find, ReadBlock, Gone,
        SeenRemoved, Renamed, Splice, PointsWell, ListDir, ShortName, UnderShort;
      TargetChain(v, disk, cat, dir, m);
      DirIsStorable(v, disk, cat, dir);
      ghost var d, was := disk, image.slots;
      ghost var x := RemovalOf(v, d, cat, dir, name, m);
      image.slots := MarkDeleted(image.slots, located.lo, located.hi);
      StoreDir(image, located.lo, located.hi, was);
      RemovedState(v, d, cat, dir, name, m, located.hi, disk);
      SeenDeleted(v, d, cat, dir, name, m, old(seen), seen);
      ghost var d2, mid := disk, seen;
      var first := located.entry.first;
      ghost var cat2, sc := WithoutTarget(cat, located.entry), FreeScope(cat, first, disk);
      TargetIsChain(v, d2, cat, located.entry);
      WithinBase(v.g, sc);
      FollowsOn(v, cat, d2, first);
      r := FreeChain(first, sc);
      SeenFreed(v, cat2, first, d2, mid, seen, disk);
      SeenRemovedThenIntact(v, x, d, d2, old(seen), mid, seen);
      GoneThenIntact(v, x, d, d2, disk);
    }

    method RemoveInner(path: seq<Name>, name: Name, ghost cat: Catalog) returns (r: Result<()>)
      requires AtRest() && WellFormed(v, disk, cat)
      modifies this`disk, this`seen, this`fatCache, this`fatDirty, this`freeCount, this`nextFree
      ensures AtRest() && (old(CopiesEqual(v.g, disk)) ==> CopiesEqual(v.g, disk))
      ensures var refused := RemoveRefused(v, old(disk), path, name);
              r == if refused.Some? then Err(refused.value) else Ok(())
      ensures r.Err? ==> disk == old(disk) && seen == old(seen)
      ensures r.Ok? ==> old(Removes(v, disk, cat, path, name))
      ensures r.Ok? ==>
                var x := old(RemovalAt(v, disk, cat, path, name));
                && Gone(v, x, old(disk), disk) && SeenRemoved(v, x, old(disk), old(seen), seen)
                && FreeSet(v.g, disk) == FreeSet(v.g, old(disk)) + ChainOf(cat, x.entry.entry.first)
    {
      hide Valid, WellFormed, FreeSet, CopiesEqual, Slots, DirBlocks, DirSectors, DirEntries, Gone, SeenRemoved, Splice,
        ListDir, Lookup, Find, Resolve, PointsWell, IsFileChain, ShortName, UnderShort, ChainOf;
      var dir :- FindDir(path);
      RootIsThere(v, disk, cat);
      ResolvesToDir(v, disk, cat, Root, path);
      var image, entries := Open(dir, cat);
      LookupIs(v, disk, cat, dir, name);
      var m := FindEntry(entries, name);
      if m >= |entries| {
        return Err(NotFound);
      }
      EntrySlot(v, disk, cat, dir, m);
      TargetChain(v, disk, cat, dir, m);
      var located := entries[m];
      if located.entry.kind == Directory {
        var _, contents := Open(Sub(located.entry.first), cat);
        if contents != [] {
          return Err(NotEmpty);
        }
      }
      BeginChange();
      r := DeleteEntry(dir, image, name, located, cat, m);
    }

    /** Removes the file, or empty directory, `name` in the directory at `path`. */
    method Remove(path: seq<Name>, name: Name, ghost cat: Catalog) returns (r: Result<()>)
      requires AtRest() && WellFormed(v, disk, cat)
      modifies this`disk, this`seen, this`fatCache, this`fatDirty, this`freeCount, this`nextFree
      ensures AtRest() && (old(CopiesEqual(v.g, disk)) ==> CopiesEqual(v.g, disk))
      ensures var refused := RemoveRefused(v, old(disk), path, name);
              r == if refused.Some? then Err(refused.value) else Ok(())
      ensures r.Err? ==>
              Intact(v, old(disk), disk) && SeenIntact(v, old(disk), old(seen), seen)
                && FreeSet(v.g, disk) == FreeSet(v.g, old(disk))
      ensures r.Ok? ==> old(Removes(v, disk, cat, path, name))
      // Every state on the way has all as before, or the entry gone, or the entry whole under its 8.3 name if it
      // renames.
      ensures r.Ok? ==>
                var x := old(RemovalAt(v, disk, cat, path, name));
                && Gone(v, x, old(disk), disk) && SeenRemoved(v, x, old(disk), old(seen), seen)
                && (ReadFile(v, disk, path, name) == Err(NotFound) <==> NoMatch(v, x.left, v.fold(name)))
                && FreeSet(v.g, disk) == FreeSet(v.g, old(disk)) + ChainOf(cat, x.entry.entry.first)
      ensures freeCount.Some? && v.g.fsinfo.Some? ==>
              InfoHolds(ReadBlock(disk, v.g.fsinfo.value), freeCount.value, nextFree)
    {
      hide Valid, WellFormed, FreeSet, CopiesEqual, Slots, DirBlocks, DirEntries, Gone, SeenRemoved, Splice, NoMatch,
        Find, Resolve, RemoveRefused, Intact, SeenIntact, ReadBlock, InfoHolds, Consistent, ShortName, UnderShort,
        ChainOf, ReadFile, HasEntry;
      r := RemoveInner(path, name, cat);
      ghost var d, d', mid := old(disk), disk, seen;
      if r.Err? {
        Finish(cat);
      } else {
        ghost var x := RemovalAt(v, d, cat, path, name);
        GoneConsistent(v, x, d, d');
        ghost var now := ItsCatalog(v, d');
        Finish(now);
        SeenRemovedThenIntact(v, x, d, d', old(seen), mid, seen);
        GoneThenIntact(v, x, d, d', disk);
        GoneReads(v, x, d, disk, path);
      }
    }
  }

  lemma FirstCopy(g: Geometry, s: nat)
    ensures CopySector(g, s, 0) == s
  {
  }

  const FSINFO_LEAD: nat := 0x4161_5252
  const FSINFO_STRUCT: nat := 0x6141_7272

  predicate HasInfo(b: Block) { U32(b, 0) == FSINFO_LEAD && U32(b, 484) == FSINFO_STRUCT }

  function Low32(n: nat): (r: nat)
    ensures r < 0x1_0000_0000 && (n < 0x1_0000_0000 ==> r == n)
  {
    n % 0x1_0000_0000
  }

  /** An FSInfo sector, if it is one, says how many clusters are free and where to look for more. */
  predicate InfoHolds(b: Block, free: nat, next: nat) {
    HasInfo(b) ==> U32(b, 488) == Low32(free) && U32(b, 492) == Low32(next)
  }

  lemma InfoPut(b: Block, free: nat, next: nat)
    requires free < 0x1_0000_0000 && next < 0x1_0000_0000
    ensures InfoHolds(Patch(Patch(b, 488, Le32(free)), 492, Le32(next)), free, next)
  {
  }

  lemma InfoOnly(g: Geometry, d: Disk, b: Block)
    requires g.Sound() && g.fsinfo.Some?
    ensures Only(g, {}, {}, d, d[g.fsinfo.value := b])
            && forall t: nat :: g.InFats(t) ==> ReadBlock(d[g.fsinfo.value := b], t) == ReadBlock(d, t)
  {
  }

  lemma FreeFits(g: Geometry, d: Disk)
    requires g.Mounted()
    ensures |FreeSet(g, d)| < 0x1_0000_0000
  {
    hide FatEntry;
    SubsetSize(FreeSet(g, d), Range(2, g.clusterCount + 2));
  }

  lemma FillNone(d: Disk, sectors: seq<nat>, blocks: seq<Block>)
    requires |sectors| == |blocks|
    ensures FilledTo(d, d, sectors, blocks, 0)
  {
  }

  lemma FilledAll(d0: Disk, d: Disk, sectors: seq<nat>, blocks: seq<Block>)
    requires |sectors| == |blocks| && FilledTo(d0, d, sectors, blocks, |sectors|)
    ensures Blocks(d, sectors) == blocks
  {
  }

  /** Writing a block of one of the clusters in scope. */
  lemma WroteWithin(g: Geometry, sc: Scope, cs: seq<nat>, k: nat, d: Disk, b: Block)
    requires g.Sound() && Within(g, sc, d) && AllFrom2(cs) && Elements(cs) <= sc.ds && k < |Sectors(g, cs)|
    ensures Within(g, sc, d[Sectors(g, cs)[k] := b])
  {
    hide Sectors, FatEntry, ReadBlock;
    var s := Sectors(g, cs)[k];
    var d' := d[s := b];
    var i := SectorInCluster(g, cs, k);
    ClusterIsData(g, cs[i], s);
    Regions(g);
    assert cs[i] in Elements(cs);
    assert forall t: nat :: t != s ==> ReadBlock(d', t) == ReadBlock(d, t) by { WroteElse(d, s, b); }
    forall c | g.IsCluster(c) ensures FatEntry(g, d, c) == FatEntry(g, d', c) {
      EntryPlaces(g, c);
      EntryIn(g, d, c);
      EntryIn(g, d', c);
    }
  }

  lemma WroteElse(d: Disk, s: nat, b: Block)
    ensures forall t: nat :: t != s ==> ReadBlock(d[s := b], t) == ReadBlock(d, t)
  {
  }

  lemma NoClusters(g: Geometry)
    requires g.sectorsPerCluster > 0
    ensures ClustersFor(g, 0) == 0
  {
  }

  lemma WithinBase(g: Geometry, sc: Scope)
    ensures Within(g, sc, sc.base)
  {
  }

  lemma WithinOnly(g: Geometry, sc: Scope, s: Disk)
    requires Within(g, sc, s)
    ensures Only(g, sc.fs, sc.ds, sc.base, s)
  {
  }

  lemma HookedSame(g: Geometry, last: nat, next: nat, d: Disk, e: Disk, s: Disk)
    requires g.IsCluster(last) && next != 0 && Only(g, {last}, {}, d, e) && FatEntry(g, e, last) == next
             && Only(g, {}, {}, e, s)
    requires last !in FreeSet(g, d)
    ensures Only(g, {last}, {}, d, s) && FatEntry(g, s, last) == next && FreeSet(g, s) == FreeSet(g, d)
  {
  }

  lemma GrownSlots(g: Geometry, cs: seq<nat>, perCluster: nat)
    requires AllFrom2(cs) && perCluster == g.ClusterSize() / DIR_ENTRY_SIZE
    ensures 16 * |Sectors(g, cs)| == |cs| * perCluster
  {
  }

  lemma PlaceFits(slots: seq<Slot>, at: nat, n: nat)
    requires IsPlace(slots, at, n)
    ensures at + n <= |slots| && slots[..|slots|] == slots
  {
  }

  lemma IntactBoot(v: Volume, d: Disk, s: Disk)
    requires Intact(v, d, s)
    ensures ReadBlock(s, 0) == ReadBlock(d, 0)
  {
  }

  ghost function SomeAlias(): (s: seq<byte>)
    ensures IsAlias(s)
  {
    [0x41, 0x41, 0x41, 0x41, 0x41, 0x41, 0x41, 0x41, 0x41, 0x41, 0x41]
  }

  lemma CandidateIsAlias(name: Name, k: nat)
    requires 1 <= k <= MAX_ALIAS
    ensures IsAlias(Candidate(AliasBasis(name), AliasExtension(name), k))
  {
  }

  lemma SeenNone(v: Volume, cat: Catalog, dir: Dir, name: Name, e: DirEntry, kept: bool, d: Disk, seen: set<Disk>)
    ensures SeenAdded(v, cat, dir, name, e, kept, d, seen, seen)
  {
  }

  lemma SlotsFit(v: Volume, d: Disk, cat: Catalog, dir: Dir)
    requires DirsFit(v, cat, MAX_ALIAS) && dir in cat.dirs
    ensures |Slots(DirBlocks(v, d, cat, dir))| < MAX_ALIAS
  {
  }

  lemma ItsCatalog(v: Volume, d: Disk) returns (cat: Catalog)
    requires Consistent(v, d)
    ensures WellFormed(v, d, cat)
  {
    hide WellFormed;
    cat :| WellFormed(v, d, cat);
  }

  lemma StillWellFormed(v: Volume, d: Disk, d': Disk) returns (cat: Catalog)
    requires Intact(v, d, d')
    ensures WellFormed(v, d', cat)
  {
    hide WellFormed;
    cat := ItsCatalog(v, d');
  }

  lemma DirFits(v: Volume, d: Disk, cat: Catalog, dir: Dir)
    requires WellFormed(v, d, cat) && dir in cat.dirs
    ensures Extent(if dir.Root? then 0 else dir.first, 0).Fits(v.g.fatType)
  {
    hide EntriesPointWell, EntriesApart, DirsTidy, FatEntry;
    if dir.Sub? {
      assert HomeOf(v, dir) == Some(dir.first);
      ChainFrom2(v, d, cat, dir.first);
      ClustersAreNoMarkers(v.g, dir.first);
    }
  }

  lemma OneCluster(g: Geometry, cs: seq<nat>)
    requires g.Sound() && |cs| == 1 && AllClusters(g, cs)
    ensures cs == [cs[0]] && Elements(cs) == {cs[0]} && Extent(cs[0], 0).Fits(g.fatType) && 64 <= |cs| * g.ClusterSize()
  {
  }

  lemma NewDirPoints(v: Volume, cat: Catalog, c: nat, name: Name, stamp: Stamp)
    ensures PointsWell(v, WithNewDir(cat, c), NewEntry(name, ATTR_DIRECTORY, Extent(c, 0), stamp))
    ensures c in WithNewDir(cat, c).chains && WithNewDir(cat, c).chains[c] == [c] && Sub(c) in WithNewDir(cat, c).dirs
            && cat.dirs <= WithNewDir(cat, c).dirs
  {
  }

  lemma PutFacts(g: Geometry, d: Disk, d': Disk, cs: seq<nat>, data: seq<byte>)
    requires IsPut(g, d, d', cs, data)
    ensures Only(g, Elements(cs), Elements(cs), d, d') && FreeSet(g, d') + Elements(cs) == FreeSet(g, d)
  {
    hide Only, FreeSet, Elements, Chop, Pad, Sectors;
  }

  /** Clusters put to use, and nothing freed or taken since. */
  lemma PutChanged(g: Geometry, d: Disk, d': Disk, s: Disk, cs: seq<nat>, data: seq<byte>)
    requires IsPut(g, d, d', cs, data) && |FreeSet(g, d')| == |FreeSet(g, d)| - |cs| && FreeSet(g, s) == FreeSet(g, d')
    ensures FreeChanged(g, d, s, |cs|, {})
  {
    hide Only, FreeSet, Elements, Chop, Pad, Sectors, IsChain;
  }

  lemma NewChainChanged(g: Geometry, d: Disk, d': Disk, first: nat, ch: seq<nat>, data: seq<byte>)
    requires g.sectorsPerCluster > 0 && IsNewChain(g, d, d', first, ch, data)
             && |FreeSet(g, d')| == |FreeSet(g, d)| - ClustersFor(g, |data|)
    ensures FreeChanged(g, d, d', ClustersFor(g, |data|), {})
  {
    hide Only, FreeSet, Elements, FileBytes, IsChain, ClustersFor;
  }

  /** A replaced file's chain was not free, and is still its own beside the new chain. */
  lemma ReplacedFrees(v: Volume, d: Disk, cat: Catalog, dir: Dir, i: nat, ch: seq<nat>)
    requires WellFormed(v, d, cat) && dir in cat.dirs && i < |DirEntries(v, d, cat, dir)|
             && NoneOwned(cat, Elements(ch))
    ensures var first := DirEntries(v, d, cat, dir)[i].entry.first;
            ChainOf(WithNew(cat, ch), first) == ChainOf(cat, first) && ChainOf(cat, first) !! FreeSet(v.g, d)
  {
    hide WellFormed, DirEntries, FatEntry, PointsWell, IsFileChain;
    var first := DirEntries(v, d, cat, dir)[i].entry.first;
    TargetChain(v, d, cat, dir, i);
    WellFormedIsLaid(v, d, cat);
    forall c | c in ChainOf(cat, first) ensures FatEntry(v.g, d, c) != 0 {
      assert Owned(cat, c);
      OwnedNotFree(v, d, cat, c);
    }
    if first != 0 && ch != [] {
      ChainFrom2(v, d, cat, first);
      assert Owned(cat, first) && ch[0] in Elements(ch);
    }
  }

  lemma FreeStays(g: Geometry, d: Disk, d': Disk, s: Disk, taken: nat, freed: set<nat>)
    requires FreeChanged(g, d, d', taken, freed) && FreeSet(g, s) == FreeSet(g, d')
    ensures FreeChanged(g, d, s, taken, freed)
  {
    hide FreeSet;
  }

  lemma PutTakes(g: Geometry, d: Disk, d': Disk, cs: seq<nat>, data: seq<byte>)
    requires IsPut(g, d, d', cs, data) && Distinct(cs)
    ensures |FreeSet(g, d')| == |FreeSet(g, d)| - |cs|
  {
    hide Only, FreeSet, Chop, Pad, Sectors, IsChain;
    DistinctSize(cs);
  }

  lemma NoElements(g: Geometry)
    ensures Elements([]) == {} && Distinct([]) && AllClusters(g, [])
  {
  }

  function Least(cs: seq<nat>): (c: nat)
    requires cs != []
    ensures c in cs && forall i :: 0 <= i < |cs| ==> c <= cs[i]
  {
    if |cs| == 1 then cs[0]
    else
      var least := Least(cs[1..]);
      if cs[0] < least then cs[0] else least
  }

  /** Overlaying a sector with what it holds changes nothing. */
  lemma OverlaySame(g: Geometry, d: Disk, sector: nat)
    ensures Only(g, {}, {}, d, d[sector := ReadBlock(d, sector)])
            && Only(g, {}, {}, d[sector := ReadBlock(d, sector)], d)
  {
  }

  lemma NoSlots()
    ensures Slots([]) == []
  {
  }

  lemma MoreSlots(blocks: seq<Block>)
    requires blocks != []
    ensures Slots(blocks) == Slots(blocks[..|blocks| - 1]) + BlockSlots(blocks[|blocks| - 1])
  {
  }
}
