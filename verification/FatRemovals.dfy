/** Removing what is in a directory: what each state on the way shows, and when there is only a before and an after. */
module FatRemovals {
  import opened Bytes
  import opened FatLayout
  import opened FatChains
  import opened FatNames
  import opened FatLongNames
  import opened FatDirectory
  import opened FatDirectoryChanges
  import opened FatNewEntries
  import opened FatTree
  import opened FatWrites
  import opened FatReads
  import opened FatRewrites
  import opened FatUpdates
  import opened FatCatalogs
  import opened FatTables
  import opened FatImages
  import opened FatSafety
  import opened FatFiles

  /** What reading the file a name finds gives. */
  function ReadFound(v: Volume, d: Disk, e: Result<DirEntry>): Result<seq<byte>> {
    if e.Err? then Err(e.error) else if e.value.kind != File then Err(NotAFile)
      else FileBytes(v.g, d, e.value.first, e.value.size)
  }

  /** The directory at `path` lists `entries`, and every name in it reads as what it finds there did in `d`. */
  ghost predicate Lists(v: Volume, path: seq<Name>, entries: seq<Located>, d: Disk, s: Disk) {
    && ReadDir(v, s, path) == Ok(Shown(entries))
    && forall n :: ReadFile(v, s, path, n) == ReadFound(v, d, Pick(v, entries, n))
  }

  /** `dir` has `entries` now; all but what is at `keys` in it is as in `d`. */
  ghost predicate NowHas(v: Volume, dir: Dir, keys: set<Name>, entries: seq<Located>, d: Disk, s: Disk) {
    && IntactBut(v, dir, keys, d, s)
    && forall path :: Resolve(v, d, Root, path) == Ok(dir) ==> Lists(v, path, entries, d, s)
  }

  lemma HasNow(v: Volume, cat: Catalog, dir: Dir, keys: set<Name>, d: Disk, s: Disk)
    requires WellFormed(v, d, cat) && WellFormed(v, s, cat) && dir in cat.dirs && ReadBlock(s, 0) == ReadBlock(d, 0)
    requires SameFiles(v, cat, d, s) && Confined(v, dir, keys, d, s)
    ensures NowHas(v, dir, keys, DirEntries(v, s, cat, dir), d, s)
  {
    hide WellFormed, SameFiles, SameElsewhere, Passes, Resolve, Consistent, DirEntries, Lists, ReadBlock;
    IsConsistent(v, s, cat);
    forall path | Resolve(v, d, Root, path) == Ok(dir) ensures Lists(v, path, DirEntries(v, s, cat, dir), d, s) {
      LandsThere(v, cat, dir, keys, d, s, path);
      ListsNow(v, cat, dir, d, s, path);
    }
  }

  lemma ListsNow(v: Volume, cat: Catalog, dir: Dir, d: Disk, s: Disk, path: seq<Name>)
    requires WellFormed(v, d, cat) && WellFormed(v, s, cat) && dir in cat.dirs && SameFiles(v, cat, d, s)
             && Resolve(v, s, Root, path) == Ok(dir)
    ensures Lists(v, path, DirEntries(v, s, cat, dir), d, s)
  {
    hide WellFormed, SameFiles, Resolve, DirEntries, ListDir, Lookup, FileBytes, Pick;
    var entries := DirEntries(v, s, cat, dir);
    LookupIs(v, s, cat, dir, []);
    forall n ensures ReadFile(v, s, path, n) == ReadFound(v, d, Pick(v, entries, n)) {
      LookupIs(v, s, cat, dir, n);
      if Lookup(v, s, dir, n).Ok? && Lookup(v, s, dir, n).value.kind == File {
        SameFilesBack(v, cat, d, s);
        FileReadsSame(v, cat, s, d, dir, n);
      }
    }
  }

  lemma SameFilesBack(v: Volume, cat: Catalog, d: Disk, s: Disk)
    requires SameFiles(v, cat, d, s)
    ensures SameFiles(v, cat, s, d)
  {
    hide FatEntry, ReadBlock, Sectors;
    forall h | IsFileChain(v, cat, h) ensures SameEntries(v.g, s, d, cat.chains[h]) && SameContents(v, cat, h, s, d) {
      assert SameEntries(v.g, d, s, cat.chains[h]) && SameContents(v, cat, h, d, s);
    }
  }

  lemma HasThenIntact(v: Volume, dir: Dir, keys: set<Name>, entries: seq<Located>, d: Disk, d': Disk, s: Disk)
    requires NowHas(v, dir, keys, entries, d, d') && Intact(v, d', s)
    ensures NowHas(v, dir, keys, entries, d, s)
  {
    hide ReadFile, ReadDir, SameElsewhere, Consistent, Resolve, ReadBlock, ReadFound, Pick;
    ButThenIntact(v, dir, keys, d, d', s);
    forall path | Resolve(v, d, Root, path) == Ok(dir) ensures Lists(v, path, entries, d, s) {
      assert Lists(v, path, entries, d, d');
    }
  }

  /** A name reads as nothing exactly if no entry matches it. */
  lemma NothingFound(v: Volume, d: Disk, entries: seq<Located>, name: Name)
    ensures ReadFound(v, d, Pick(v, entries, name)) == Err(NotFound) <==> NoMatch(v, entries, v.fold(name))
  {
    var i := Find(v, entries, name);
    if i < |entries| {
      WalkErrors(v.g, d, Some(entries[i].entry.first), [], Some(entries[i].entry.size));
    }
  }

  lemma {:induction false} WalkErrors(g: Geometry, d: Disk, at: Option<nat>, done: seq<nat>, want: Option<nat>)
    ensures Walk(g, d, at, done, want) != Err(NotFound)
    decreases g.clusterCount - |done|
  {
    if at.Some? && g.IsCluster(at.value) && |done| < g.clusterCount {
      match Next(g, d, at.value)
      case End => WalkErrors(g, d, None, done + [at.value], want);
      case Bad =>
      case Link(next) => WalkErrors(g, d, Some(next), done + [at.value], want);
    }
  }

  /** Why removing is refused before anything is changed. */
  function RemoveRefused(v: Volume, d: Disk, path: seq<Name>, name: Name): Option<FatError> {
    var dir := Resolve(v, d, Root, path);
    if dir.Err? then Some(dir.error)
    else
      var e := Lookup(v, d, dir.value, name);
      if e.Err? then Some(e.error)
      else if e.value.kind == Directory && ListDir(v, d, Sub(e.value.first)) != Ok([]) then Some(NotEmpty)
      else None
  }

  /** What it takes to remove what `name` finds in `dir`. */
  ghost predicate CanRemove(v: Volume, d: Disk, cat: Catalog, dir: Dir, name: Name, m: nat) {
    && WellFormed(v, d, cat) && dir in cat.dirs
    && m < |DirEntries(v, d, cat, dir)| && Find(v, DirEntries(v, d, cat, dir), name) == m
    && (DirEntries(v, d, cat, dir)[m].entry.kind == Directory ==>
        ListDir(v, d, Sub(DirEntries(v, d, cat, dir)[m].entry.first)) == Ok([]))
  }

  /** What removing the entry that `name` finds does: its name, the 8.3 name of its own slot, and the directory's
      entries once it is gone, or only its last slot is left. */
  datatype Removal = Removal(dir: Dir, name: Name, entry: Located, short: Name, left: seq<Located>,
                             renamed: seq<Located>) {
    /** Its slots lie in more than one block, and its 8.3 name would show as another. */
    predicate Renames() { entry.lo / SLOTS != (entry.hi - 1) / SLOTS && !IsDots(short) && short != entry.entry.name }
  }

  ghost predicate HasEntry(v: Volume, d: Disk, cat: Catalog, dir: Dir, m: nat) {
    && m < |DirEntries(v, d, cat, dir)|
    && DirEntries(v, d, cat, dir)[m].lo < DirEntries(v, d, cat, dir)[m].hi <= |Slots(DirBlocks(v, d, cat, dir))|
  }

  ghost function RemovalOf(v: Volume, d: Disk, cat: Catalog, dir: Dir, name: Name, m: nat): Removal
    requires HasEntry(v, d, cat, dir, m)
  {
    var was, slots := DirEntries(v, d, cat, dir), Slots(DirBlocks(v, d, cat, dir));
    var p := was[m].hi - 1;
    Removal(dir, name, was[m], ShortName(slots[p]), Splice(was, m, 1, []),
            Splice(was, m, 1, UnderShort(v.g.fatType, slots, p)))
  }

  /** The entry is gone, and all else as before: what `name` still finds is a second entry it matches. */
  ghost predicate Gone(v: Volume, x: Removal, d: Disk, s: Disk) {
    NowHas(v, x.dir, {v.fold(x.name)}, x.left, d, s)
  }

  /** The whole file or directory is there under its 8.3 name, and all else as before. */
  ghost predicate Renamed(v: Volume, x: Removal, d: Disk, s: Disk) {
    NowHas(v, x.dir, {v.fold(x.name), v.fold(x.short)}, x.renamed, d, s)
  }

  /** Every state is as before, or has the entry gone, or renamed if it renames; and then one has. */
  ghost predicate SeenRemoved(v: Volume, x: Removal, d: Disk, was: set<Disk>, now: set<Disk>) {
    && was <= now
    && (forall s :: s in now && s !in was ==>
          Intact(v, d, s) || Gone(v, x, d, s) || (x.Renames() && Renamed(v, x, d, s)))
    && (x.Renames() ==> exists s :: s in now && Renamed(v, x, d, s))
  }

  /** A state with the entry renamed is neither as before nor one with the entry gone: there is no other way to tell. */
  lemma RenamedShows(v: Volume, d: Disk, cat: Catalog, dir: Dir, name: Name, m: nat, path: seq<Name>, s: Disk)
    requires WellFormed(v, d, cat) && dir in cat.dirs && HasEntry(v, d, cat, dir, m)
             && Resolve(v, d, Root, path) == Ok(dir)
    requires var x := RemovalOf(v, d, cat, dir, name, m); x.Renames() && Renamed(v, x, d, s)
    ensures var x := RemovalOf(v, d, cat, dir, name, m); !Intact(v, d, s) && !Gone(v, x, d, s)
  {
    hide WellFormed, DirEntries, Slots, DirBlocks, ListDir, Resolve, SameElsewhere, Consistent, ReadFile, ShortName,
      EntryOf, IsDots, ReadFound, Pick, ReadBlock;
    var x, was := RemovalOf(v, d, cat, dir, name, m), DirEntries(v, d, cat, dir);
    LookupIs(v, d, cat, dir, name);
    assert Lists(v, path, x.renamed, d, s);
    assert Shown(x.renamed)[m].name
           == x.short by { NameOfEntry(v.g.fatType, Slots(DirBlocks(v, d, cat, dir)), x.entry.hi - 1); }
    assert Shown(was)[m] == was[m].entry;
    assert Gone(v, x, d, s) ==> Lists(v, path, x.left, d, s);
    assert |Shown(x.left)| + 1 == |Shown(x.renamed)|;
  }

  lemma NameOfEntry(t: FatType, slots: seq<Slot>, p: nat)
    requires p < |slots|
    ensures UnderShort(t, slots, p) != [] ==> UnderShort(t, slots, p)[0].entry.name == ShortName(slots[p])
    ensures UnderShort(t, slots, p) == [] <==> IsDots(ShortName(slots[p]))
  {
    hide ShortName;
  }

  /** A volume part way through deleting an entry. */
  lemma RemovedState(v: Volume, d: Disk, cat: Catalog, dir: Dir, name: Name, m: nat, to: nat, s: Disk)
    requires CanRemove(v, d, cat, dir, name, m) && HasEntry(v, d, cat, dir, m)
    requires var e := DirEntries(v, d, cat, dir)[m];
             && e.lo < to <= e.hi
             && Holds(d, s, DirSectors(v, cat, dir), MarkDeleted(Slots(DirBlocks(v, d, cat, dir)), e.lo, to))
    ensures var x := RemovalOf(v, d, cat, dir, name, m);
            && WellFormed(v, s, cat)
            && (to == x.entry.hi ==> Unreferenced(v, s, cat, x.entry.entry.first) && Gone(v, x, d, s))
            && (to < x.entry.hi && x.short != x.entry.entry.name && !IsDots(x.short) ==> Renamed(v, x, d, s))
            && (to < x.entry.hi && (x.short == x.entry.entry.name || IsDots(x.short)) ==>
                Intact(v, d, s) || Gone(v, x, d, s))
  {
    hide WellFormed, Slots, DirBlocks, DirSectors, DirEntries, Holds, MarkDeleted, ShortName, SameFiles, ListDir,
      NowHas, Unreferenced, Find, Splice, Consistent, Confined, KeysOf, UnderShort, ChangedIn, Intact, IsDots,
      ReadBlock;
    var x, was, slots :=
      RemovalOf(v, d, cat, dir, name, m), DirEntries(v, d, cat, dir), Slots(DirBlocks(v, d, cat, dir));
    var p := was[m].hi - 1;
    DeleteStored(v, cat, dir, d, s, m, p, to);
    var left := LeftOver(v.g.fatType, slots, p, to);
    HasNow(v, cat, dir, KeysOf(v, [was[m]] + left), d, s);
    SameKey(v, was, name, m);
    NameOfEntry(v.g.fatType, slots, p);
    if left == [] {
      assert [was[m]] + left == [was[m]];
      OneKey(v, was[m]);
    } else {
      assert [was[m]] + left == [was[m], left[0]];
      TwoKeys(v, was[m], left[0]);
      if x.short == x.entry.entry.name {
        SameNameIntact(v, d, cat, dir, m, s);
      }
    }
  }

  lemma SameKey(v: Volume, entries: seq<Located>, name: Name, m: nat)
    requires m < |entries| && Find(v, entries, name) == m
    ensures v.fold(entries[m].entry.name) == v.fold(name)
  {
  }

  /** An entry that keeps its name, and loses slots only, reads as before. */
  lemma SameNameIntact(v: Volume, d: Disk, cat: Catalog, dir: Dir, m: nat, s: Disk)
    requires WellFormed(v, d, cat) && WellFormed(v, s, cat) && dir in cat.dirs && HasEntry(v, d, cat, dir, m)
             && ReadBlock(s, 0) == ReadBlock(d, 0)
    requires SameFiles(v, cat, d, s) && ChangedIn(v, cat, dir, d, s)
    requires var was, slots := DirEntries(v, d, cat, dir), Slots(DirBlocks(v, d, cat, dir));
             var p := was[m].hi - 1;
             && ShortName(slots[p]) == was[m].entry.name && !IsDots(ShortName(slots[p]))
             && DirEntries(v, s, cat, dir) == Splice(was, m, 1, UnderShort(v.g.fatType, slots, p))
    ensures Intact(v, d, s)
  {
    hide WellFormed, Slots, DirBlocks, Entries, SameFiles, ChangedIn, Passes, Resolve, Consistent, ShortName, EntryOf,
      IsDots, Pick, ListDir, ReadFile, ReadDir, SameElsewhere, ReadBlock;
    var was, now, slots := DirEntries(v, d, cat, dir), DirEntries(v, s, cat, dir), Slots(DirBlocks(v, d, cat, dir));
    KindOf(v.g.fatType, slots, m, was[m].hi - 1);
    assert forall j :: 0 <= j < |was| ==> now[j].entry == was[j].entry;
    forall n ensures Pick(v, was, n) == Pick(v, now, n) {
      SamePick(v, was, now, n);
    }
    ChangeReads(v, cat, dir, {}, d, s);
    HasNow(v, cat, dir, {}, d, s);
    forall path, n ensures ReadFile(v, d, path, n) == ReadFile(v, s, path, n) {
      NoKeysPassed(v, d, Root, path, dir);
      ElsewhereReads(v, dir, d, s, path, n);
    }
    forall path ensures ReadDir(v, d, path) == ReadDir(v, s, path) {
      NoKeysPassed(v, d, Root, path, dir);
      if Resolve(v, d, Root, path) == Ok(dir) {
        assert Lists(v, path, now, d, s);
        DirReads(v, d, cat, dir, path);
        assert Shown(was) == Shown(now);
      } else {
        ElsewhereLists(v, dir, d, s, path);
      }
    }
  }

  lemma DirReads(v: Volume, d: Disk, cat: Catalog, dir: Dir, path: seq<Name>)
    requires WellFormed(v, d, cat) && dir in cat.dirs && Resolve(v, d, Root, path) == Ok(dir)
    ensures ReadDir(v, d, path) == Ok(Shown(DirEntries(v, d, cat, dir)))
  {
    hide WellFormed, Resolve, DirEntries, ListDir;
    LookupIs(v, d, cat, dir, []);
  }

  lemma ElsewhereReads(v: Volume, dir: Dir, d: Disk, s: Disk, path: seq<Name>, n: Name)
    requires SameElsewhere(v, Some(Place(dir, {})), d, s) && !Passes(v, d, Root, path, Some(Place(dir, {})))
    ensures ReadFile(v, d, path, n) == ReadFile(v, s, path, n)
  {
    hide Passes, Resolve, ReadFile, ReadDir;
    assert Avoids(v, d, path, n, Some(Place(dir, {})));
  }

  lemma ElsewhereLists(v: Volume, dir: Dir, d: Disk, s: Disk, path: seq<Name>)
    requires SameElsewhere(v, Some(Place(dir, {})), d, s) && !Passes(v, d, Root, path, Some(Place(dir, {})))
    requires Resolve(v, d, Root, path) != Ok(dir)
    ensures ReadDir(v, d, path) == ReadDir(v, s, path)
  {
    hide Passes, Resolve, ReadFile, ReadDir;
    assert IsClear(v, d, path, Some(Place(dir, {})));
  }

  lemma {:induction false} NoKeysPassed(v: Volume, d: Disk, from: Dir, path: seq<Name>, dir: Dir)
    ensures !Passes(v, d, from, path, Some(Place(dir, {})))
    decreases path
  {
    hide Child;
    if path != [] && Child(v, d, from, path[0]).Ok? {
      NoKeysPassed(v, d, Child(v, d, from, path[0]).value, path[1..], dir);
    }
  }

  lemma SamePick(v: Volume, was: seq<Located>, now: seq<Located>, name: Name)
    requires |was| == |now| && forall j :: 0 <= j < |was| ==> now[j].entry == was[j].entry
    ensures Pick(v, was, name) == Pick(v, now, name)
  {
    var i := Find(v, was, name);
    FindIs(v, now, name, i);
  }

  /** Everything seen while deleting an entry. */
  lemma SeenDeleted(v: Volume, d: Disk, cat: Catalog, dir: Dir, name: Name, m: nat, was: set<Disk>, now: set<Disk>)
    requires CanRemove(v, d, cat, dir, name, m) && HasEntry(v, d, cat, dir, m) && was <= now
    requires var slots, e := Slots(DirBlocks(v, d, cat, dir)), DirEntries(v, d, cat, dir)[m];
             var deleted := MarkDeleted(slots, e.lo, e.hi);
             && (forall s :: s in now && s !in was ==>
                   exists k :: e.lo < 16 * k <= |slots|
                       && Holds(d, s, DirSectors(v, cat, dir), Mixed(slots, deleted, k)))
             && (forall k :: e.lo < 16 * k < e.hi ==>
                   exists s :: s in now && Holds(d, s, DirSectors(v, cat, dir), Mixed(slots, deleted, k)))
    ensures SeenRemoved(v, RemovalOf(v, d, cat, dir, name, m), d, was, now)
  {
    hide WellFormed, Slots, DirBlocks, DirSectors, DirEntries, Holds, MarkDeleted, ShortName, CanRemove, ListDir,
      Intact, Gone, Renamed, Mixed, Splice, UnderShort, IsDots, Unreferenced;
    var slots, e := Slots(DirBlocks(v, d, cat, dir)), DirEntries(v, d, cat, dir)[m];
    var x, deleted := RemovalOf(v, d, cat, dir, name, m), MarkDeleted(slots, e.lo, e.hi);
    forall s | s in now && s !in was ensures Intact(v, d, s) || Gone(v, x, d, s) || (x.Renames() && Renamed(v, x, d, s))
    {
      var k :| e.lo < 16 * k <= |slots| && Holds(d, s, DirSectors(v, cat, dir), Mixed(slots, deleted, k));
      DeleteMixed(slots, e.lo, e.hi, k);
      RemovedState(v, d, cat, dir, name, m, if 16 * k < e.hi then 16 * k else e.hi, s);
    }
    if x.Renames() {
      var k := e.lo / 16 + 1;
      var s :| s in now && Holds(d, s, DirSectors(v, cat, dir), Mixed(slots, deleted, k));
      DeleteMixed(slots, e.lo, e.hi, k);
      RemovedState(v, d, cat, dir, name, m, 16 * k, s);
    }
  }

  lemma SeenRemovedThenIntact(v: Volume, x: Removal, d: Disk, d': Disk, was: set<Disk>, mid: set<Disk>, now: set<Disk>)
    requires SeenRemoved(v, x, d, was, mid) && Gone(v, x, d, d') && SeenIntact(v, d', mid, now)
    ensures SeenRemoved(v, x, d, was, now)
  {
    hide NowHas, Intact;
    forall s | s in now && s !in was && s !in mid ensures Gone(v, x, d, s) {
      HasThenIntact(v, x.dir, {v.fold(x.name)}, x.left, d, d', s);
    }
  }

  lemma GoneThenIntact(v: Volume, x: Removal, d: Disk, d': Disk, s: Disk)
    requires Gone(v, x, d, d') && Intact(v, d', s)
    ensures Gone(v, x, d, s)
  {
    hide NowHas, Intact;
    HasThenIntact(v, x.dir, {v.fold(x.name)}, x.left, d, d', s);
  }

  lemma GoneConsistent(v: Volume, x: Removal, d: Disk, s: Disk)
    requires Gone(v, x, d, s)
    ensures Consistent(v, s)
  {
    hide SameElsewhere, Lists, Consistent;
  }

  /** A removed name reads as nothing exactly if no second entry matches it. */
  lemma GoneReads(v: Volume, x: Removal, d: Disk, s: Disk, path: seq<Name>)
    requires Gone(v, x, d, s) && Resolve(v, d, Root, path) == Ok(x.dir)
    ensures ReadFile(v, s, path, x.name) == Err(NotFound) <==> NoMatch(v, x.left, v.fold(x.name))
  {
    hide IntactBut, Resolve, ReadFile, ReadDir, ReadFound, Pick, NoMatch;
    assert Lists(v, path, x.left, d, s);
    NothingFound(v, d, x.left, x.name);
  }

  // What the two names read as on the way.

  lemma PickLeft(v: Volume, was: seq<Located>, m: nat, n: Name)
    requires m < |was| && v.fold(was[m].entry.name) != v.fold(n)
    ensures Pick(v, Splice(was, m, 1, []), n) == Pick(v, was, n)
  {
    var i := Find(v, was, n);
    FindIs(v, Splice(was, m, 1, []), n, if i <= m then i else i - 1);
  }

  lemma PickRenamed(v: Volume, was: seq<Located>, m: nat, e: Located, n: Name)
    requires m < |was|
    ensures v.fold(e.entry.name) != v.fold(n) ==>
              Pick(v, Splice(was, m, 1, [e]), n) == Pick(v, Splice(was, m, 1, []), n)
    ensures v.fold(e.entry.name) == v.fold(n) ==>
              Pick(v, Splice(was, m, 1, [e]), n) == if Find(v, was, n) < m then Pick(v, was, n) else Ok(e.entry)
  {
    var now := Splice(was, m, 1, [e]);
    if v.fold(e.entry.name) != v.fold(n) {
      assert Splice(now, m, 1, []) == Splice(was, m, 1, []);
      PickLeft(v, now, m, n);
    } else {
      var i := Find(v, was, n);
      FindIs(v, now, n, if i < m then i else m);
    }
  }

  lemma NameReads(v: Volume, d: Disk, cat: Catalog, dir: Dir, path: seq<Name>, n: Name)
    requires WellFormed(v, d, cat) && dir in cat.dirs && Resolve(v, d, Root, path) == Ok(dir)
    ensures ReadFile(v, d, path, n) == ReadFound(v, d, Pick(v, DirEntries(v, d, cat, dir), n))
  {
    hide WellFormed, Resolve, DirEntries, ListDir, Pick;
    LookupIs(v, d, cat, dir, n);
  }

  /**
   * In every state on the way the name reads as before, or as a second entry it matches, or as nothing if there is
   * none; and the 8.3 name, where it is another, reads as before or as the whole file removed.
   */
  lemma RemovedReads(v: Volume, d: Disk, cat: Catalog, dir: Dir, name: Name, m: nat, path: seq<Name>, s: Disk)
    requires CanRemove(v, d, cat, dir, name, m) && HasEntry(v, d, cat, dir, m) && Resolve(v, d, Root, path) == Ok(dir)
    requires var x := RemovalOf(v, d, cat, dir, name, m);
             Intact(v, d, s) || Gone(v, x, d, s) || (x.Renames() && Renamed(v, x, d, s))
    ensures var x, now := RemovalOf(v, d, cat, dir, name, m), ReadFile(v, s, path, name);
            && (now == ReadFile(v, d, path, name) || now == ReadFound(v, d, Pick(v, x.left, name)))
            && (NoMatch(v, x.left, v.fold(name)) ==> now == ReadFile(v, d, path, name) || now == Err(NotFound))
    ensures var x := RemovalOf(v, d, cat, dir, name, m);
            var now := ReadFile(v, s, path, x.short);
            v.fold(x.short) != v.fold(name) ==>
              now == ReadFile(v, d, path, x.short) || now == ReadFile(v, d, path, name)
  {
    hide WellFormed, DirEntries, Slots, DirBlocks, ListDir, Resolve, SameElsewhere, Consistent, ReadFile, ReadDir,
      ShortName, EntryOf, IsDots, Pick, NoMatch, Splice, ReadBlock, FileBytes, UnderShort, Shown;
    var x, was, slots :=
      RemovalOf(v, d, cat, dir, name, m), DirEntries(v, d, cat, dir), Slots(DirBlocks(v, d, cat, dir));
    NameReads(v, d, cat, dir, path, name);
    NameReads(v, d, cat, dir, path, x.short);
    NothingFound(v, d, x.left, name);
    PickIsFirst(v, was, m, name);
    if v.fold(x.short) != v.fold(name) {
      PickLeft(v, was, m, x.short);
    }
    if x.Renames() {
      NameOfEntry(v.g.fatType, slots, x.entry.hi - 1);
      var e := UnderShort(v.g.fatType, slots, x.entry.hi - 1)[0];
      SameFound(v, d, cat, dir, m, e);
      PickRenamed(v, was, m, e, name);
      PickRenamed(v, was, m, e, x.short);
    }
    assert Gone(v, x, d, s) ==> Lists(v, path, x.left, d, s);
    assert Renamed(v, x, d, s) ==> Lists(v, path, x.renamed, d, s);
  }

  lemma PickIsFirst(v: Volume, was: seq<Located>, m: nat, name: Name)
    requires m < |was| && Find(v, was, name) == m
    ensures Pick(v, was, name) == Ok(was[m].entry)
  {
  }

  /** The last slot of an entry, alone, reads as the entry does. */
  lemma SameFound(v: Volume, d: Disk, cat: Catalog, dir: Dir, m: nat, e: Located)
    requires HasEntry(v, d, cat, dir, m)
    requires UnderShort(v.g.fatType, Slots(DirBlocks(v, d, cat, dir)), DirEntries(v, d, cat, dir)[m].hi - 1) == [e]
    ensures ReadFound(v, d, Ok(e.entry)) == ReadFound(v, d, Ok(DirEntries(v, d, cat, dir)[m].entry))
  {
    hide Slots, DirBlocks, Entries, FileBytes, ShortName, IsDots;
    KindOf(v.g.fatType, Slots(DirBlocks(v, d, cat, dir)), m, DirEntries(v, d, cat, dir)[m].hi - 1);
  }

  /** The catalog once a removed entry's target is just a chain. */
  ghost function WithoutTarget(cat: Catalog, e: DirEntry): Catalog {
    if e.kind == Directory then WithoutDir(cat, e.first) else cat
  }

  lemma TargetIsChain(v: Volume, d: Disk, cat: Catalog, e: DirEntry)
    requires WellFormed(v, d, cat) && PointsWell(v, cat, e) && Unreferenced(v, d, cat, e.first)
    ensures var cat' := WithoutTarget(cat, e);
            && WellFormed(v, d, cat')
               && (e.first == 0 || (IsFileChain(v, cat', e.first) && Unreferenced(v, d, cat', e.first)))
            && FreeScope(cat', e.first, d) == FreeScope(cat, e.first, d)
  {
    hide WellFormed, Unreferenced, SameDirs;
    if e.kind == Directory {
      DropDir(v, d, cat, e.first);
    }
  }

  /** The entry that removing `name` in the directory at `path` takes away. */
  ghost predicate Removes(v: Volume, d: Disk, cat: Catalog, path: seq<Name>, name: Name) {
    var dir := Resolve(v, d, Root, path);
    dir.Ok? && HasEntry(v, d, cat, dir.value, Find(v, DirEntries(v, d, cat, dir.value), name))
  }

  ghost function RemovalAt(v: Volume, d: Disk, cat: Catalog, path: seq<Name>, name: Name): Removal
    requires Removes(v, d, cat, path, name)
  {
    var dir := Resolve(v, d, Root, path).value;
    RemovalOf(v, d, cat, dir, name, Find(v, DirEntries(v, d, cat, dir), name))
  }
}
