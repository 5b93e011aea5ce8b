/** The changes an operation makes to one directory of a well-formed volume: after each the volume is
    well formed, and only the paths at the changed name read differently. */
module FatUpdates {
  import opened Bytes
  import opened FatLayout
  import opened FatChains
  import opened FatNames
  import opened FatLongNames
  import opened FatDirectory
  import opened FatDirectoryChanges
  import opened FatNewEntries
  import opened FatTree
  import opened FatWrites
  import opened FatReads
  import opened FatRewrites

  /** A directory's names are found the same, but for `keys`. */
  ghost predicate PicksSame(v: Volume, was: seq<Located>, now: seq<Located>, keys: set<Name>) {
    forall n :: v.fold(n) !in keys ==> Pick(v, was, n) == Pick(v, now, n)
  }

  /** The volume differs only in what paths lead to or through the names `keys` in `dir`. */
  ghost predicate Confined(v: Volume, dir: Dir, keys: set<Name>, d: Disk, d': Disk) {
    var at := Some(Place(dir, keys));
    && SameElsewhere(v, at, d, d')
    && forall path :: !Passes(v, d, Root, path, at) ==> Resolve(v, d, Root, path) == Resolve(v, d', Root, path)
  }

  lemma ChangeReads(v: Volume, cat: Catalog, dir: Dir, keys: set<Name>, d: Disk, d': Disk)
    requires WellFormed(v, d, cat) && dir in cat.dirs && ChangedIn(v, cat, dir, d, d')
    requires PicksSame(v, DirEntries(v, d, cat, dir), DirEntries(v, d', cat, dir), keys)
    ensures Confined(v, dir, keys, d, d')
  {
    hide WellFormed, ChangedIn, ReadFile, Passes, Resolve, SameLookups, SameFiles, SameChildren, DirEntries, Pick,
      ListDir;
    var at := Some(Place(dir, keys));
    ChangeLookups(v, cat, dir, keys, d, d');
    WellFormedIsLaid(v, d, cat);
    FilesElsewhere(v, cat, dir, d, d');
    RootIsThere(v, d, cat);
    LookupsChildren(v, cat, at, d, d');
    forall path, name | Avoids(v, d, path, name, at) ensures ReadFile(v, d, path, name) == ReadFile(v, d', path, name) {
      ReadSame(v, cat, at, d, d', path, name);
    }
    ChangeLists(v, cat, dir, d, d');
    forall path | IsClear(v, d, path, at) ensures ReadDir(v, d, path) == ReadDir(v, d', path) {
      ResolveSame(v, cat, at, d, d', Root, path);
      if Resolve(v, d, Root, path).Ok? {
        ResolvesToDir(v, d, cat, Root, path);
      }
    }
    forall path | !Passes(v, d, Root, path, at) ensures Resolve(v, d, Root, path) == Resolve(v, d', Root, path) {
      ResolveSame(v, cat, at, d, d', Root, path);
    }
  }

  lemma ChangeLookups(v: Volume, cat: Catalog, dir: Dir, keys: set<Name>, d: Disk, d': Disk)
    requires WellFormed(v, d, cat) && dir in cat.dirs && ChangedIn(v, cat, dir, d, d')
    requires PicksSame(v, DirEntries(v, d, cat, dir), DirEntries(v, d', cat, dir), keys)
    ensures SameLookups(v, cat, Some(Place(dir, keys)), d, d')
  {
    hide WellFormed, ChangedIn, WellLaid, DirBlocks, EntriesIn, ListDir, Pick;
    WellFormedIsLaid(v, d, cat);
    ChangedLaid(v, cat, dir, d, d');
    var at := Some(Place(dir, keys));
    forall other, n | other in cat.dirs && !IsAt(v, other, n, at)
      ensures Lookup(v, d, other, n) == Lookup(v, d', other, n)
    {
      ListsDir(v, d, cat, other);
      ListsDir(v, d', cat, other);
      if other != dir {
        OtherDirs(v, cat, dir, d, d', other);
      }
    }
  }

  /* An entry's fields rewritten. */

  /** The file of entry `m` now has the extent `x`. */
  function Replaced(entries: seq<Located>, m: nat, x: Extent, stamp: Stamp): (r: seq<Located>)
    requires m < |entries|
    ensures |r| == |entries|
  {
    entries[m := entries[m].(entry := DirEntry(entries[m].entry.name, File, x.size, stamp.date, stamp.time, x.first))]
  }

  lemma ReplacedEntries(t: FatType, slots: seq<Slot>, m: nat, p: nat, x: Extent, stamp: Stamp)
    requires m < |Entries(t, slots)| && Entries(t, slots)[m].hi == p + 1 && Entries(t, slots)[m].entry.kind == File
    requires p < |slots| && x.Fits(t) && stamp.Fits() && Tidy(slots)
    ensures var slots' := slots[p := SetModified(SetExtent(slots[p], x), stamp)];
            Entries(t, slots') == Replaced(Entries(t, slots), m, x, stamp) && Tidy(slots')
  {
    hide Entries, SetModified, SetExtent, EntryOf, ScanTo, Found;
    var s := SetModified(SetExtent(slots[p], x), stamp);
    var e := Entries(t, slots)[m];
    SetFields(t, slots[p], x, stamp, e.entry.name);
    RewriteEntry(t, slots, m, p, s);
    SameHead(slots[p], s);
    KindOf(t, slots, m, p);
  }

  lemma KindOf(t: FatType, slots: seq<Slot>, m: nat, p: nat)
    requires m < |Entries(t, slots)| && Entries(t, slots)[m].hi == p + 1 && p < |slots|
    ensures Entries(t, slots)[m].entry == EntryOf(t, slots[p], Entries(t, slots)[m].entry.name)
    ensures Entries(t, slots)[m].entry.kind == (if IsDirectory(slots[p]) then Directory else File) && !IsEnd(slots[p])
  {
    hide ScanTo, TakeName, ShortName, IsPlain, IsEnd, FoundSince;
    EntryRead(t, slots, m, p);
    PlainNoEnd(slots[p]);
  }

  lemma PlainNoEnd(s: Slot)
    requires IsPlain(s)
    ensures !IsEnd(s)
  {
  }

  /** A change in a directory leaves the ways to it open. */
  lemma LandsThere(v: Volume, cat: Catalog, dir: Dir, keys: set<Name>, d: Disk, d': Disk, path: seq<Name>)
    requires WellFormed(v, d, cat) && Confined(v, dir, keys, d, d') && Resolve(v, d, Root, path) == Ok(dir)
    ensures Resolve(v, d', Root, path) == Ok(dir)
  {
    hide WellFormed, SameElsewhere, Passes, Resolve;
    NoWayBack(v, d, cat, dir, keys, path);
  }

  /** What entry `m` pointed at is no longer pointed at once no entry comes from it. */
  lemma FirstGone(v: Volume, cat: Catalog, dir: Dir, d: Disk, d': Disk, m: nat, from: Sources)
    requires WellFormed(v, d, cat) && dir in cat.dirs && OthersSame(v, cat, dir, d, d')
             && m < |DirEntries(v, d, cat, dir)|
    requires IsSource(DirEntries(v, d, cat, dir), DirEntries(v, d', cat, dir), from) && Some(m) !in from
    requires NewPointWell(v, d, cat, DirEntries(v, d', cat, dir), from)
    ensures Unreferenced(v, d', cat, DirEntries(v, d, cat, dir)[m].entry.first)
  {
    hide WellLaid, DirEntries, PointsWell, EntriesPointWell, DirsTidy;
    var f := DirEntries(v, d, cat, dir)[m].entry.first;
    forall a, i | f != 0 && a in cat.dirs && 0 <= i < |DirEntries(v, d', cat, a)|
      ensures DirEntries(v, d', cat, a)[i].entry.first != f
    {
      var i0 := if a == dir then from[i] else Some(i);
      assert i0.Some? ==> DirEntries(v, d, cat, a)[i0.value].entry.first == DirEntries(v, d', cat, a)[i].entry.first;
    }
  }

  lemma ChangedOthers(v: Volume, cat: Catalog, dir: Dir, d: Disk, d': Disk)
    requires WellFormed(v, d, cat) && dir in cat.dirs && ChangedIn(v, cat, dir, d, d')
    ensures OthersSame(v, cat, dir, d, d')
  {
    hide WellFormed, ChangedIn, DirBlocks, EntriesIn;
    WellFormedIsLaid(v, d, cat);
    forall other | other in cat.dirs && other != dir
      ensures DirEntries(v, d, cat, other) == DirEntries(v, d', cat, other)
    {
      OtherDirs(v, cat, dir, d, d', other);
    }
  }

  /** Other directories list the same after a change to one. */
  lemma ChangeLists(v: Volume, cat: Catalog, dir: Dir, d: Disk, s: Disk)
    requires WellFormed(v, d, cat) && dir in cat.dirs && ChangedIn(v, cat, dir, d, s)
    ensures SameLists(v, cat.dirs - {dir}, d, s)
    ensures DirEntries(v, s, cat, dir) == DirEntries(v, d, cat, dir) ==> SameLists(v, cat.dirs, d, s)
  {
    hide WellFormed, ChangedIn, DirEntries, ListDir;
    WellFormedIsLaid(v, d, cat);
    ChangedLaid(v, cat, dir, d, s);
    ChangedOthers(v, cat, dir, d, s);
    forall o | o in cat.dirs && (o != dir || DirEntries(v, s, cat, dir) == DirEntries(v, d, cat, dir))
      ensures ListDir(v, d, o) == ListDir(v, s, o)
    {
      ListsDir(v, d, cat, o);
      ListsDir(v, s, cat, o);
    }
  }

  /* Entries added, removed or replaced. */

  /** `was` with `found` in place of the `k` entries from `m` on. */
  function Splice(was: seq<Located>, m: nat, k: nat, found: seq<Located>): (r: seq<Located>)
    requires m + k <= |was|
    ensures |r| == |was| - k + |found|
    ensures forall j :: 0 <= j < |r| ==>
              r[j] == if j < m then was[j] else if j < m + |found| then found[j - m] else was[j - |found| + k]
  {
    was[..m] + found + was[m + k..]
  }

  function KeysOf(v: Volume, entries: seq<Located>): set<Name> {
    set i | 0 <= i < |entries| :: v.fold(entries[i].entry.name)
  }

  /** Names that neither the new nor the old entries match are found as before. */
  lemma SplicePicks(v: Volume, was: seq<Located>, m: nat, k: nat, found: seq<Located>, n: Name)
    requires m + k <= |was| && v.fold(n) !in KeysOf(v, was[m..m + k] + found)
    ensures Pick(v, Splice(was, m, k, found), n) == Pick(v, was, n)
  {
    hide KeysOf, Find;
    var changed := was[m..m + k] + found;
    var i := Find(v, was, n);
    if m <= i < m + k {
      assert changed[i - m] == was[i];
      InKeys(v, changed, i - m);
    }
    var now := Splice(was, m, k, found);
    var i' := if i < m then i else i - k + |found|;
    forall j | 0 <= j < i' ensures v.fold(now[..i'][j].entry.name) != v.fold(n) {
      assert now[..i'][j] == now[j];
      if m <= j < m + |found| {
        assert changed[j - m + k] == found[j - m];
        InKeys(v, changed, j - m + k);
      } else {
        assert now[j] == was[if j < m then j else j - |found| + k];
      }
    }
    assert i < |was| ==> now[i'] == was[i];
    FindIs(v, now, n, i');
  }

  lemma InKeys(v: Volume, entries: seq<Located>, i: nat)
    requires i < |entries|
    ensures v.fold(entries[i].entry.name) in KeysOf(v, entries)
  {
  }

  function SourceAt(m: nat, k: nat, kept: bool, count: nat, j: nat): Option<nat> {
    if j < m then Some(j) else if j < m + count then (if kept then Some(j) else None) else Some(j + k - count)
  }

  function SpliceFrom(n: nat, m: nat, k: nat, kept: bool, count: nat): (from: Sources)
    requires m + k <= n
    ensures |from| == n - k + count && forall j :: 0 <= j < |from| ==> from[j] == SourceAt(m, k, kept, count, j)
  {
    seq(n - k + count, j requires 0 <= j => SourceAt(m, k, kept, count, j))
  }

  /** Replacing an entry, or adding or removing one, keeps a volume well formed and changes what reads
      at their names alone. */
  lemma SpliceKeeps(v: Volume, cat: Catalog, dir: Dir, d: Disk, d': Disk, m: nat, k: nat, kept: bool,
                    found: seq<Located>)
    requires WellFormed(v, d, cat) && dir in cat.dirs && ChangedIn(v, cat, dir, d, d')
    requires m + k <= |DirEntries(v, d, cat, dir)| && k <= 1 && |found| <= 1
    requires DirEntries(v, d', cat, dir) == Splice(DirEntries(v, d, cat, dir), m, k, found)
             && Tidy(Slots(DirBlocks(v, d', cat, dir)))
    requires kept ==> k == |found| == 1 && SameTarget(found[0].entry, DirEntries(v, d, cat, dir)[m].entry)
    requires !kept && found != [] ==>
             PointsWell(v, cat, found[0].entry) && Unreferenced(v, d, cat, found[0].entry.first)
    ensures WellFormed(v, d', cat)
    ensures !kept && k == 1 ==> Unreferenced(v, d', cat, DirEntries(v, d, cat, dir)[m].entry.first)
    ensures Confined(v, dir, KeysOf(v, DirEntries(v, d, cat, dir)[m..m + k] + found), d, d')
  {
    hide WellFormed, ChangedIn, DirEntries, Tidy, Confined, Unreferenced, IsSource, PicksSame, OthersSame, SpliceFrom,
      KeysOf, PointsWell;
    var was, now := DirEntries(v, d, cat, dir), DirEntries(v, d', cat, dir);
    var from := SpliceFrom(|was|, m, k, kept, |found|);
    SpliceSource(was, m, k, kept, found);
    ChangeKeepsWellFormed(v, cat, dir, d, d', from);
    SplicePicksAll(v, was, m, k, found);
    ChangeReads(v, cat, dir, KeysOf(v, was[m..m + k] + found), d, d');
    if !kept && k == 1 {
      ChangedOthers(v, cat, dir, d, d');
      FirstGone(v, cat, dir, d, d', m, from);
    }
  }

  predicate SameTarget(e: DirEntry, e': DirEntry) { e.first == e'.first && e.kind == e'.kind }

  lemma SpliceSource(was: seq<Located>, m: nat, k: nat, kept: bool, found: seq<Located>)
    requires m + k <= |was| && k <= 1 && |found| <= 1
    requires kept ==> k == |found| == 1 && SameTarget(found[0].entry, was[m].entry)
    ensures var from := SpliceFrom(|was|, m, k, kept, |found|);
            && IsSource(was, Splice(was, m, k, found), from)
            && (!kept && k == 1 ==> Some(m) !in from)
            && (forall j :: 0 <= j < |from| && from[j].None? ==> !kept && j == m && found != [])
  {
    hide SpliceFrom, Splice, SourceAt;
    var from, now := SpliceFrom(|was|, m, k, kept, |found|), Splice(was, m, k, found);
    forall i, j | 0 <= i < |from| && 0 <= j < |from| && from[i] == from[j] ensures i == j {
      SourcesDiffer(m, k, kept, |found|, i, j);
    }
    forall j | 0 <= j < |from|
      ensures from[j].Some? ==> from[j].value < |was| && SameTarget(now[j].entry, was[from[j].value].entry)
      ensures from[j].Some? && !kept && k == 1 ==> from[j].value != m
      ensures from[j].None? ==> !kept && j == m && found != []
    {
      SpliceSourceAt(was, m, k, kept, found, j);
    }
  }

  lemma SourcesDiffer(m: nat, k: nat, kept: bool, count: nat, i: nat, j: nat)
    requires k <= 1 && count <= 1 && (kept ==> k == count == 1)
             && SourceAt(m, k, kept, count, i) == SourceAt(m, k, kept, count, j)
    ensures i == j
  {
  }

  lemma SpliceSourceAt(was: seq<Located>, m: nat, k: nat, kept: bool, found: seq<Located>, j: nat)
    requires m + k <= |was| && k <= 1 && |found| <= 1 && j < |was| - k + |found|
    requires kept ==> k == |found| == 1 && SameTarget(found[0].entry, was[m].entry)
    ensures var from, now := SourceAt(m, k, kept, |found|, j), Splice(was, m, k, found);
            && j < |now|
            && (from.Some? ==> from.value < |was| && SameTarget(now[j].entry, was[from.value].entry))
            && (from.Some? && !kept && k == 1 ==> from.value != m)
            && (from.None? ==> !kept && j == m && found != [])
  {
  }

  lemma SplicePicksAll(v: Volume, was: seq<Located>, m: nat, k: nat, found: seq<Located>)
    requires m + k <= |was|
    ensures PicksSame(v, was, Splice(was, m, k, found), KeysOf(v, was[m..m + k] + found))
  {
    hide KeysOf, Pick, Splice;
    forall n | v.fold(n) !in KeysOf(v, was[m..m + k] + found)
      ensures Pick(v, was, n) == Pick(v, Splice(was, m, k, found), n)
    {
      SplicePicks(v, was, m, k, found, n);
    }
  }

  lemma LookupIs(v: Volume, d: Disk, cat: Catalog, dir: Dir, name: Name)
    requires WellFormed(v, d, cat) && dir in cat.dirs
    ensures Lookup(v, d, dir, name) == Pick(v, DirEntries(v, d, cat, dir), name)
            && ListDir(v, d, dir) == Ok(DirEntries(v, d, cat, dir))
  {
    hide WellFormed, ListDir, DirEntries;
    WellFormedIsLaid(v, d, cat);
    ListsDir(v, d, cat, dir);
  }

  /** After replacing the file that `name` finds, `name` shows the new entry. */
  lemma ReplacedShows(v: Volume, cat: Catalog, dir: Dir, d: Disk, d': Disk, m: nat, x: Extent, stamp: Stamp, name: Name)
    requires WellFormed(v, d, cat) && WellFormed(v, d', cat) && dir in cat.dirs
    requires m < |DirEntries(v, d, cat, dir)| && DirEntries(v, d, cat, dir)[m].entry.kind == File
    requires DirEntries(v, d', cat, dir) == Replaced(DirEntries(v, d, cat, dir), m, x, stamp)
    requires Find(v, DirEntries(v, d, cat, dir), name) == m && Confined(v, dir, {v.fold(name)}, d, d')
    ensures Lookup(v, d', dir, name) == Ok(Replaced(DirEntries(v, d, cat, dir), m, x, stamp)[m].entry)
    ensures forall path :: Resolve(v, d, Root, path) == Ok(dir) ==> Resolve(v, d', Root, path) == Ok(dir)
  {
    hide WellFormed, DirEntries, Passes, Resolve, Lookup, Find, SameElsewhere;
    var was, now := DirEntries(v, d, cat, dir), DirEntries(v, d', cat, dir);
    LookupIs(v, d', cat, dir, name);
    forall path | Resolve(v, d, Root, path) == Ok(dir) ensures Resolve(v, d', Root, path) == Ok(dir) {
      LandsThere(v, cat, dir, {v.fold(name)}, d, d', path);
    }
    PickReplaced(v, was, m, now[m], name);
  }

  /* A new entry. */

  /** The slots of a new entry make one entry more, pointing where it should. Its name reads back, unless
      orphaned pieces of another name take it over. */
  lemma AddedEntries(t: FatType, slots: seq<Slot>, at: nat, name: Name, alias: seq<byte>, attr: byte, x: Extent,
                     stamp: Stamp)
    returns (m: nat, found: seq<Located>)
    requires CanAdd(t, name, alias, attr, x, stamp) && Tidy(slots)
             && IsPlace(slots, at, |NewSlots(name, alias, attr, x, stamp)|)
    ensures var slots' := Patch(slots, at, NewSlots(name, alias, attr, x, stamp));
            Tidy(slots') && m <= |Entries(t, slots)| && Entries(t, slots') == Splice(Entries(t, slots), m, 0, found)
    ensures |found| <= 1 && (found != [] ==> SameTarget(found[0].entry, NewEntry(name, attr, x, stamp)))
    ensures ReadsBack(name, ScanTo(t, slots, at).long)
            <==> found != [] && found[0].entry == NewEntry(name, attr, x, stamp)
  {
    hide ScanTo, Entries, NewSlots, Tidy, AllFree, CheckName, IsText, ReadsBack, NewEntry, Found, IsEnd, IsAliasByte,
      AllPieces, IsPlain;
    NoZeros(name);
    var added := NewSlots(name, alias, attr, x, stamp);
    var slots' := Patch(slots, at, added);
    var last := at + |added| - 1;
    NewSlotsShape(t, name, alias, attr, x, stamp);
    PlaceTidy(slots, at, |added|, added);
    PlaceNotEnded(t, slots, at, |added|);
    ScanPrefix(t, slots, slots', at);
    found := NewFound(t, slots', at, added);
    AddWhole(t, slots, at, added, found);
    m := |ScanTo(t, slots, at).entries|;
    if found != [] {
      SameSlotTarget(t, slots'[last], name, found[0].entry.name);
    }
    if ReadsBack(name, ScanTo(t, slots, at).long) {
      assert slots'[at..at + |added|] == added;
      NewEntryReads(t, slots', at, name, alias, attr, x, stamp);
      var before := ScanTo(t, slots, at).entries;
      assert found == (before + found)[m..] && ScanTo(t, slots', last + 1).entries == before + found;
    } else {
      assert slots'[at..at + |added|] == added;
      NotKept(t, slots', at, name, alias, attr, x, stamp, found);
    }
    assert Entries(t, slots)[m + 0..] == Entries(t, slots)[m..];
  }

  /** A name that does not read back is not what its slots are found as. */
  lemma NotKept(t: FatType, slots: seq<Slot>, at: nat, name: Name, alias: seq<byte>, attr: byte, x: Extent,
                stamp: Stamp, found: seq<Located>)
    requires at <= |slots| && CanAdd(t, name, alias, attr, x, stamp) && !ScanTo(t, slots, at).ended
             && !ReadsBack(name, ScanTo(t, slots, at).long)
    requires var added := NewSlots(name, alias, attr, x, stamp);
             && at + |added| <= |slots| && slots[at..at + |added|] == added
             && ScanTo(t, slots, at + |added|) == Scan(ScanTo(t, slots, at).entries + found, NOTHING, false)
    ensures found == [] || found[0].entry.name != name
  {
    hide ScanTo, ScanSlot, ShortEntry, IsText, CheckName, LongSlots, Pieces, IsPlain, TakeName, Checksum, EntryOf,
      ShortName, Collect, AllPieces, ExactShort, CaseFlags, IsShortPart;
    NoZeros(name);
    FewPieces(name);
    var added, before := NewSlots(name, alias, attr, x, stamp), ScanTo(t, slots, at);
    var n := |added| - 1;
    NewSlotsShape(t, name, alias, attr, x, stamp);
    assert slots[at + n] == slots[at..at + |added|][n] == added[n];
    var long := before.long;
    if IsExactShort(name) {
      ShortEntryHolds(t, ExactShort(name), CaseFlags(name), attr, x, stamp, name);
    } else {
      ShortEntryHolds(t, alias, 0, attr, x, stamp, name);
      PiecesArePieces(name, Checksum(alias));
      var pieces := LongSlots(name, Checksum(alias));
      assert added[..n] == pieces == pieces[..n];
      SliceStarts(slots, at, n, |added|);
      ScanPieces(t, slots, at, pieces, n);
      LongNameReadsBack(before.long, name, alias, at);
      long := Collect(before.long, pieces, at, n);
    }
    ScanNext(t, slots, at + n + 1);
    PlainStep(t, ScanTo(t, slots, at + n), slots[at + n], at + n);
    assert found == (before.entries + found)[|before.entries|..];
    assert Found(t, long, slots[at + n], at + n)
           == (before.entries + Found(t, long, slots[at + n], at + n))[|before.entries|..];
    assert found == Found(t, long, slots[at + n], at + n);
  }

  lemma SliceStarts<T>(s: seq<T>, at: nat, n: nat, m: nat)
    requires n <= m && at + m <= |s|
    ensures s[at..at + n] == s[at..at + m][..n]
  {
  }

  lemma PlaceNotEnded(t: FatType, slots: seq<Slot>, at: nat, n: nat)
    requires IsPlace(slots, at, n)
    ensures !ScanTo(t, slots, at).ended
  {
    NotEndedBefore(t, slots, at);
  }

  lemma SlotsOf(slots: seq<Slot>, at: nat, added: seq<Slot>, n: nat)
    requires n < |added| && at + |added| <= |slots| && slots[at..at + |added|] == added
    ensures slots[at..at + n] == added[..n] == added[..n][..n] && slots[at + n] == added[n]
  {
    assert slots[at..at + n] == slots[at..at + |added|][..n];
    assert slots[at + n] == slots[at..at + |added|][n];
  }

  /** What pieces and a plain slot after them stand for. */
  lemma NewFound(t: FatType, slots: seq<Slot>, at: nat, added: seq<Slot>) returns (found: seq<Located>)
    requires added != [] && at + |added| <= |slots| && slots[at..at + |added|] == added
    requires AllPieces(added[..|added| - 1]) && IsPlain(added[|added| - 1]) && !ScanTo(t, slots, at).ended
    ensures ScanTo(t, slots, at + |added|) == Scan(ScanTo(t, slots, at).entries + found, NOTHING, false)
    ensures |found| <= 1 && (found != [] ==> found[0].entry == EntryOf(t, added[|added| - 1], found[0].entry.name))
  {
    hide ScanTo, ScanSlot, AllPieces, IsPlain, EntryOf, TakeName, ShortName;
    var n := |added| - 1;
    SlotsOf(slots, at, added, n);
    ScanPieces(t, slots, at, added[..n], n);
    ScanNext(t, slots, at + n + 1);
    PlainStep(t, ScanTo(t, slots, at + n), slots[at + n], at + n);
    found := Found(t, ScanTo(t, slots, at + n).long, slots[at + n], at + n);
  }

  lemma SameSlotTarget(t: FatType, s: Slot, n: Name, n': Name)
    ensures SameTarget(EntryOf(t, s, n), EntryOf(t, s, n'))
  {
  }

  /** A name new to its directory shows the entry added under it. */
  lemma AddedShows(v: Volume, cat: Catalog, dir: Dir, d: Disk, d': Disk, m: nat, e: Located, name: Name)
    requires WellFormed(v, d, cat) && WellFormed(v, d', cat) && dir in cat.dirs
    requires m <= |DirEntries(v, d, cat, dir)|
             && DirEntries(v, d', cat, dir) == Splice(DirEntries(v, d, cat, dir), m, 0, [e])
    requires NoMatch(v, DirEntries(v, d, cat, dir), v.fold(name)) && e.entry.name == name
             && Confined(v, dir, {v.fold(name)}, d, d')
    ensures Lookup(v, d', dir, name) == Ok(e.entry)
    ensures forall path :: Resolve(v, d, Root, path) == Ok(dir) ==> Resolve(v, d', Root, path) == Ok(dir)
  {
    hide WellFormed, DirEntries, Passes, Resolve, Lookup, Pick, NoMatch, SameElsewhere;
    var was := DirEntries(v, d, cat, dir);
    LookupIs(v, d', cat, dir, name);
    forall path | Resolve(v, d, Root, path) == Ok(dir) ensures Resolve(v, d', Root, path) == Ok(dir) {
      LandsThere(v, cat, dir, {v.fold(name)}, d, d', path);
    }
    FindsAdded(v, was, m, e, name);
  }

  lemma FindsAdded(v: Volume, was: seq<Located>, m: nat, e: Located, name: Name)
    requires m <= |was| && NoMatch(v, was, v.fold(name)) && e.entry.name == name
    ensures Pick(v, Splice(was, m, 0, [e]), name) == Ok(e.entry)
  {
    var now := Splice(was, m, 0, [e]);
    assert now[..m] == was[..m];
    FindIs(v, now, name, m);
  }

  /* An entry deleted. */

  /** What the slot at `p` stands for without a long name: an entry under its 8.3 name, if that is no `.` or `..`. */
  function UnderShort(t: FatType, slots: seq<Slot>, p: nat): (r: seq<Located>)
    requires p < |slots|
    ensures |r| <= 1
  {
    var name := ShortName(slots[p]);
    if IsDots(name) then [] else [Located(EntryOf(t, slots[p], name), p, p + 1)]
  }

  /** What is left of the entry at `p` once its slots before `to` are deleted. */
  function LeftOver(t: FatType, slots: seq<Slot>, p: nat, to: nat): (r: seq<Located>)
    requires p < |slots|
    ensures |r| <= 1
  {
    if to == p + 1 then [] else UnderShort(t, slots, p)
  }

  /** Marking an entry's slots deleted removes it alone; marking only the first of them leaves it under its 8.3 name. */
  lemma DeletedEntries(t: FatType, slots: seq<Slot>, m: nat, p: nat, to: nat)
    requires m < |Entries(t, slots)| && Entries(t, slots)[m].hi == p + 1 <= |slots|
             && Entries(t, slots)[m].lo < to <= p + 1 && Tidy(slots)
    ensures var slots' := MarkDeleted(slots, Entries(t, slots)[m].lo, to);
            Tidy(slots') && Entries(t, slots') == Splice(Entries(t, slots), m, 1, LeftOver(t, slots, p, to))
    ensures var left := LeftOver(t, slots, p, to); left != [] ==> SameTarget(left[0].entry, Entries(t, slots)[m].entry)
  {
    hide Entries, ScanTo, Found, MarkDeleted, EntryOf, IsDirectory, ShortName, IsPlain, FoundSince;
    DeleteEntry(t, slots, m, p, to);
    EntryRead(t, slots, m, p);
    FoundPlain(t, slots, p);
    KindOf(t, slots, m, p);
    SameSlotTarget(t, slots[p], ShortName(slots[p]), Entries(t, slots)[m].entry.name);
    DeletedTidy(t, slots, m, p, to);
  }

  lemma FoundPlain(t: FatType, slots: seq<Slot>, p: nat)
    requires p < |slots| && IsPlain(slots[p])
    ensures Found(t, NOTHING, slots[p], p) == UnderShort(t, slots, p)
  {
    hide EntryOf, ShortName, IsPlain;
  }

  lemma DeletedTidy(t: FatType, slots: seq<Slot>, m: nat, p: nat, to: nat)
    requires m < |Entries(t, slots)| && Entries(t, slots)[m].hi == p + 1 <= |slots|
             && Entries(t, slots)[m].lo < to <= p + 1 && Tidy(slots)
    ensures Tidy(MarkDeleted(slots, Entries(t, slots)[m].lo, to))
  {
    hide Entries, ScanTo, Found, MarkDeleted, IsPlain, IsLong;
    EntryPieces(t, slots, m, p);
    KindOf(t, slots, m, p);
    var slots' := MarkDeleted(slots, Entries(t, slots)[m].lo, to);
    forall i, j | 0 <= i < j < |slots| && IsEnd(slots'[i]) ensures IsEnd(slots'[j]) {
      assert IsEnd(slots[i]);
      assert IsEnd(slots[j]);
    }
  }

  /* A directory grown. */

  /** Unused slots after a directory's last make no difference to its entries. */
  lemma GrownEntries(t: FatType, slots: seq<Slot>, more: seq<Slot>)
    requires Tidy(slots) && forall i :: 0 <= i < |more| ==> IsEnd(more[i])
    ensures Entries(t, slots + more) == Entries(t, slots) && Tidy(slots + more)
  {
    hide ScanTo, IsEnd, IsDeleted, HasEnd;
    var slots' := slots + more;
    ScanPrefix(t, slots, slots', |slots|);
    if ScanTo(t, slots', |slots|).ended {
      ScanStops(t, slots', |slots|, |slots'|);
    } else if more != [] {
      assert forall i :: |slots| <= i < |slots'| ==> slots'[i] == more[i - |slots|];
      ScanFree(t, slots', |slots|, |slots'|);
    }
  }

  function WithTail(cat: Catalog, h: nat, more: seq<nat>): Catalog
    requires h in cat.chains
  {
    cat.(chains := cat.chains[h := cat.chains[h] + more])
  }

  /** `d'` has the chain `more` hooked onto the last cluster of the chain at `h`. */
  ghost predicate Hooked(v: Volume, cat: Catalog, h: nat, more: seq<nat>, d: Disk, d': Disk) {
    && h in cat.chains && cat.chains[h] != [] && more != []
    && (var last := cat.chains[h][|cat.chains[h]| - 1];
        Only(v.g, {last}, {}, d, d') && FatEntry(v.g, d', last) == more[0])
  }

  lemma HookedChain(v: Volume, cat: Catalog, h: nat, more: seq<nat>, d: Disk, d': Disk)
    requires WellLaid(v, d, cat) && Hooked(v, cat, h, more, d, d') && IsChain(v.g, d, more)
             && NoneOwned(cat, Elements(more))
    ensures IsChain(v.g, d', cat.chains[h] + more)
  {
    hide FatEntry, InAny, ReadBlock;
    ChainFrom2(v, d, cat, h);
    var ch, g := cat.chains[h], v.g;
    var all, last := ch + more, ch[|ch| - 1];
    ChainIsDistinct(g, d, ch);
    assert Owned(cat, last);
    ClustersAreNoMarkers(g, more[0]);
    forall i | 0 <= i < |all| && i != |ch| - 1 ensures Next(g, d', all[i]) == Next(g, d, all[i]) {
      assert all[i] in Elements(more) || i < |ch|;
    }
    forall i | 0 <= i < |all| - 1 ensures Next(g, d', all[i]) == Link(all[i + 1]) {
      if i < |ch| - 1 {
        assert Next(g, d, ch[i]) == Link(ch[i + 1]);
      } else if i > |ch| - 1 {
        assert Next(g, d, more[i - |ch|]) == Link(more[i - |ch| + 1]);
      }
    }
  }

  lemma HookedLaid(v: Volume, cat: Catalog, h: nat, more: seq<nat>, d: Disk, d': Disk)
    requires WellLaid(v, d, cat) && Hooked(v, cat, h, more, d, d') && IsChain(v.g, d, more)
             && NoneOwned(cat, Elements(more))
    ensures WellLaid(v, d', WithTail(cat, h, more))
  {
    hide FatEntry, InAny, ReadBlock, Only;
    HookedChain(v, cat, h, more, d, d');
    var cat' := WithTail(cat, h, more);
    forall k | k in cat'.chains ensures IsChain(v.g, d', cat'.chains[k]) && cat'.chains[k][0] == k {
      ChainFrom2(v, d, cat, k);
      if k != h {
        HookedOther(v, cat, h, more, d, d', k);
      }
    }
    forall a, b, c | a in cat'.chains && b in cat'.chains && c in cat'.chains[a] && c in cat'.chains[b] ensures a == b {
      if c in more {
        assert c in Elements(more);
      }
      assert c in cat.chains[a] ==> Owned(cat, c);
      assert c in cat.chains[b] ==> Owned(cat, c);
    }
  }

  lemma HookedOther(v: Volume, cat: Catalog, h: nat, more: seq<nat>, d: Disk, d': Disk, k: nat)
    requires WellLaid(v, d, cat) && Hooked(v, cat, h, more, d, d') && k in cat.chains && k != h
    ensures IsChain(v.g, d', cat.chains[k])
  {
    hide FatEntry, InAny, ReadBlock;
    ChainFrom2(v, d, cat, k);
    var ch, last := cat.chains[k], cat.chains[h][|cat.chains[h]| - 1];
    forall i | 0 <= i < |ch| ensures Next(v.g, d', ch[i]) == Next(v.g, d, ch[i]) {
      assert last in cat.chains[h] && ch[i] in cat.chains[k];
    }
  }

  /** Blocks of zeros hold unused slots. */
  lemma {:induction false} ZeroSlots(blocks: seq<Block>)
    requires forall i :: 0 <= i < |blocks| ==> blocks[i] == ZERO_BLOCK
    ensures forall k :: 0 <= k < |Slots(blocks)| ==> IsEnd(Slots(blocks)[k])
  {
    hide Slots;
    forall k | 0 <= k < |Slots(blocks)| ensures IsEnd(Slots(blocks)[k]) {
      SlotsAt(blocks, k);
    }
  }

  /** Hooking zeroed clusters onto a directory's chain keeps the volume well formed and gives the
      directory unused slots; all else is alike. */
  lemma GrowKeeps(v: Volume, cat: Catalog, dir: Dir, h: nat, more: seq<nat>, d: Disk, d': Disk)
    requires WellFormed(v, d, cat) && dir in cat.dirs && HomeOf(v, dir) == Some(h)
    requires Hooked(v, cat, h, more, d, d') && IsChain(v.g, d, more) && NoneOwned(cat, Elements(more))
    requires AllFrom2(more)
             && forall i :: 0 <= i < |Sectors(v.g, more)| ==> ReadBlock(d', Sectors(v.g, more)[i]) == ZERO_BLOCK
    ensures WellFormed(v, d', WithTail(cat, h, more)) && Alike(v, cat, d, d')
    ensures DirSectors(v, WithTail(cat, h, more), dir) == DirSectors(v, cat, dir) + Sectors(v.g, more)
    ensures DirBlocks(v, d', WithTail(cat, h, more), dir) == DirBlocks(v, d, cat, dir) + Blocks(d', Sectors(v.g, more))
    ensures forall other :: other in cat.dirs ==>
              DirEntries(v, d', WithTail(cat, h, more), other) == DirEntries(v, d, cat, other)
  {
    hide WellFormed, WellLaid, Only, IsChain, NoneOwned, DirBlocks, EntriesIn, DirSectors, Blocks, Sectors, Alike, Tidy,
      Slots, ReadBlock, SameContents, SameEntries, SameRoot;
    WellFormedIsLaid(v, d, cat);
    HookedLaid(v, cat, h, more, d, d');
    HookedMirrors(v, cat, h, more, d, d');
    GrownDir(v, cat, dir, h, more, d, d');
    var cat' := WithTail(cat, h, more);
    forall other | other in cat.dirs && other != dir
      ensures Tidy(Slots(DirBlocks(v, d', cat', other)))
              && DirEntries(v, d', cat', other) == DirEntries(v, d, cat, other)
    {
      GrownOther(v, cat, dir, h, more, d, d', other);
      DirIsTidy(v, d, cat, other);
    }
    GrownWellFormed(v, cat, d, cat', d');
    GrownAlike(v, cat, d, cat', d', h);
  }

  lemma DirIsTidy(v: Volume, d: Disk, cat: Catalog, dir: Dir)
    requires WellFormed(v, d, cat) && dir in cat.dirs
    ensures Tidy(Slots(DirBlocks(v, d, cat, dir)))
  {
  }

  /** What hooking on clusters leaves as it was. */
  lemma HookedMirrors(v: Volume, cat: Catalog, h: nat, more: seq<nat>, d: Disk, d': Disk)
    requires WellLaid(v, d, cat) && Hooked(v, cat, h, more, d, d')
    ensures SameRoot(v, d, d')
            && forall k :: k in cat.chains ==>
                 SameContents(v, cat, k, d, d') && (k != h ==> SameEntries(v.g, d, d', cat.chains[k]))
  {
    hide FatEntry, SameContents, InAny;
    var last := cat.chains[h][|cat.chains[h]| - 1];
    OnlyKeepsRoot(v, {last}, {}, d, d');
    forall k | k in cat.chains
      ensures SameContents(v, cat, k, d, d') && (k != h ==> SameEntries(v.g, d, d', cat.chains[k]))
    {
      OnlyKeepsContents(v, cat, {last}, {}, d, d', k);
      ChainFrom2(v, d, cat, k);
      forall i | k != h && 0 <= i < |cat.chains[k]|
        ensures FatEntry(v.g, d, cat.chains[k][i]) == FatEntry(v.g, d', cat.chains[k][i])
      {
        assert last in cat.chains[h] && cat.chains[k][i] in cat.chains[k];
      }
    }
  }

  lemma GrownDir(v: Volume, cat: Catalog, dir: Dir, h: nat, more: seq<nat>, d: Disk, d': Disk)
    requires WellFormed(v, d, cat) && dir in cat.dirs && HomeOf(v, dir) == Some(h) && h in cat.chains
    requires SameContents(v, cat, h, d, d') && AllFrom2(more)
    requires forall i :: 0 <= i < |Sectors(v.g, more)| ==> ReadBlock(d', Sectors(v.g, more)[i]) == ZERO_BLOCK
    ensures DirSectors(v, WithTail(cat, h, more), dir) == DirSectors(v, cat, dir) + Sectors(v.g, more)
    ensures DirBlocks(v, d', WithTail(cat, h, more), dir) == DirBlocks(v, d, cat, dir) + Blocks(d', Sectors(v.g, more))
    ensures DirEntries(v, d', WithTail(cat, h, more), dir) == DirEntries(v, d, cat, dir)
    ensures Tidy(Slots(DirBlocks(v, d', WithTail(cat, h, more), dir)))
  {
    hide WellLaid, Sectors, Slots, Entries, Tidy, EntriesPointWell, EntriesApart, ReadBlock, FatEntry;
    SectorsAppend(v.g, cat.chains[h], more);
    var had, new_ := DirBlocks(v, d, cat, dir), Blocks(d', Sectors(v.g, more));
    BlocksSame(d, d', Sectors(v.g, cat.chains[h]));
    assert DirBlocks(v, d', WithTail(cat, h, more), dir) == had + new_;
    SlotsAppend(had, new_);
    ZeroSlots(new_);
    GrownEntries(v.g.fatType, Slots(had), Slots(new_));
  }

  lemma GrownOther(v: Volume, cat: Catalog, dir: Dir, h: nat, more: seq<nat>, d: Disk, d': Disk, other: Dir)
    requires WellLaid(v, d, cat) && dir in cat.dirs && HomeOf(v, dir) == Some(h) && h in cat.chains && other in cat.dirs
             && other != dir
    requires SameRoot(v, d, d') && forall k :: k in cat.chains ==> SameContents(v, cat, k, d, d')
    ensures DirBlocks(v, d', WithTail(cat, h, more), other) == DirBlocks(v, d, cat, other)
  {
    hide Sectors, RegionSectors, IsChain, ChainsApart;
    var home := HomeOf(v, other);
    assert home != Some(h);
    if home.Some? {
      assert SameContents(v, cat, home.value, d, d');
    }
    BlocksSame(d, d', DirSectors(v, cat, other));
  }

  /** A grown catalog over the same entries. */
  lemma GrownWellFormed(v: Volume, cat: Catalog, d: Disk, cat': Catalog, d': Disk)
    requires WellFormed(v, d, cat) && WellLaid(v, d', cat') && cat'.dirs == cat.dirs
             && cat'.chains.Keys == cat.chains.Keys
    requires forall dir :: dir in cat.dirs ==>
               DirEntries(v, d', cat', dir) == DirEntries(v, d, cat, dir) && Tidy(Slots(DirBlocks(v, d', cat', dir)))
    ensures WellFormed(v, d', cat')
  {
    hide WellLaid, DirBlocks, DirEntries, Tidy, Slots;
    forall dir, i | dir in cat.dirs && 0 <= i < |DirEntries(v, d', cat', dir)|
      ensures PointsWell(v, cat', DirEntries(v, d', cat', dir)[i].entry)
    {
      assert PointsWell(v, cat, DirEntries(v, d, cat, dir)[i].entry);
    }
    forall a, i, b, j |
      && a in cat.dirs && 0 <= i < |DirEntries(v, d', cat', a)|
      && b in cat.dirs && 0 <= j < |DirEntries(v, d', cat', b)|
      && DirEntries(v, d', cat', a)[i].entry.first == DirEntries(v, d', cat', b)[j].entry.first != 0
      ensures a == b && i == j
    {
      assert DirEntries(v, d, cat, a)[i].entry.first == DirEntries(v, d, cat, b)[j].entry.first;
    }
  }

  lemma GrownAlike(v: Volume, cat: Catalog, d: Disk, cat': Catalog, d': Disk, h: nat)
    requires WellFormed(v, d, cat) && WellLaid(v, d', cat') && cat'.dirs == cat.dirs && !IsFileChain(v, cat, h)
    requires forall dir :: dir in cat.dirs ==> DirEntries(v, d', cat', dir) == DirEntries(v, d, cat, dir)
    requires forall k :: k in cat.chains ==>
               SameContents(v, cat, k, d, d') && (k != h ==> SameEntries(v.g, d, d', cat.chains[k]))
    ensures Alike(v, cat, d, d')
  {
    hide WellFormed, DirEntries, ListDir, SameContents, SameEntries;
    WellFormedIsLaid(v, d, cat);
    forall dir | dir in cat.dirs ensures ListDir(v, d, dir) == ListDir(v, d', dir) {
      ListsDir(v, d, cat, dir);
      ListsDir(v, d', cat', dir);
    }
  }
}
