/** What paths read, compared between two states of a volume that differ in one directory at most. */
module FatReads {
  import opened Bytes
  import opened FatLayout
  import opened FatChains
  import opened FatNames
  import opened FatDirectory
  import opened FatDirectoryChanges
  import opened FatTree
  import opened FatWrites

  /** Names in a directory, up to matching. */
  datatype Place = Place(dir: Dir, keys: set<Name>)

  predicate IsAt(v: Volume, dir: Dir, name: Name, at: Option<Place>) {
    at.Some? && dir == at.value.dir && v.fold(name) in at.value.keys
  }

  /** Whether following `path` from `from` meets the name at `at`. */
  ghost predicate Passes(v: Volume, d: Disk, from: Dir, path: seq<Name>, at: Option<Place>)
    decreases path
  {
    path != [] &&
    (IsAt(v, from, path[0], at)
     || (Child(v, d, from, path[0]).Ok? && Passes(v, d, Child(v, d, from, path[0]).value, path[1..], at)))
  }

  /** Directories are the same everywhere but at `at`. */
  ghost predicate SameChildren(v: Volume, cat: Catalog, at: Option<Place>, d: Disk, d': Disk) {
    forall dir, n :: dir in cat.dirs && !IsAt(v, dir, n, at) ==> Child(v, d, dir, n) == Child(v, d', dir, n)
  }

  /** Entries are the same everywhere but at `at`. */
  ghost predicate SameLookups(v: Volume, cat: Catalog, at: Option<Place>, d: Disk, d': Disk) {
    forall dir, n :: dir in cat.dirs && !IsAt(v, dir, n, at) ==> Lookup(v, d, dir, n) == Lookup(v, d', dir, n)
  }

  ghost predicate IsFileChain(v: Volume, cat: Catalog, h: nat) {
    h in cat.chains && Sub(h) !in cat.dirs && HomeOf(v, Root) != Some(h)
  }

  /** Files hold the same. */
  ghost predicate SameFiles(v: Volume, cat: Catalog, d: Disk, d': Disk) {
    forall h :: IsFileChain(v, cat, h) ==> SameEntries(v.g, d, d', cat.chains[h]) && SameContents(v, cat, h, d, d')
  }

  lemma {:induction false} ResolveSame(v: Volume, cat: Catalog, at: Option<Place>, d: Disk, d': Disk, from: Dir,
                                       path: seq<Name>)
    requires WellFormed(v, d, cat) && from in cat.dirs && SameChildren(v, cat, at, d, d')
             && !Passes(v, d, from, path, at)
    ensures Resolve(v, d, from, path) == Resolve(v, d', from, path)
    decreases path
  {
    hide WellFormed, Lookup, IsAt;
    if path != [] {
      assert Child(v, d, from, path[0]) == Child(v, d', from, path[0]);
      if Child(v, d, from, path[0]).Ok? {
        DirIsThere(v, d, cat, from, path[0]);
        ResolveSame(v, cat, at, d, d', Child(v, d, from, path[0]).value, path[1..]);
      }
    }
  }

  lemma {:induction false} PassesNowhere(v: Volume, d: Disk, from: Dir, path: seq<Name>)
    ensures !Passes(v, d, from, path, None)
    decreases path
  {
    hide Child;
    if path != [] && Child(v, d, from, path[0]).Ok? {
      PassesNowhere(v, d, Child(v, d, from, path[0]).value, path[1..]);
    }
  }

  /** The path of file `name` in the directory at `path` neither passes `at` nor ends there. */
  ghost predicate Avoids(v: Volume, d: Disk, path: seq<Name>, name: Name, at: Option<Place>) {
    !Passes(v, d, Root, path, at)
      && (Resolve(v, d, Root, path).Ok? ==> !IsAt(v, Resolve(v, d, Root, path).value, name, at))
  }

  /** The directory at `path` is not the one of `at`, nor behind it. */
  ghost predicate IsClear(v: Volume, d: Disk, path: seq<Name>, at: Option<Place>) {
    !Passes(v, d, Root, path, at) && (at.Some? ==> Resolve(v, d, Root, path) != Ok(at.value.dir))
  }

  /** Every path that stays clear of `at` reads the same, and every other directory lists the same. */
  ghost predicate SameElsewhere(v: Volume, at: Option<Place>, d: Disk, d': Disk) {
    && (forall path, name :: Avoids(v, d, path, name, at) ==> ReadFile(v, d, path, name) == ReadFile(v, d', path, name))
    && (forall path :: IsClear(v, d, path, at) ==> ReadDir(v, d, path) == ReadDir(v, d', path))
  }

  /** Every file reads the same, and every directory lists the same. */
  ghost predicate SameReads(v: Volume, d: Disk, d': Disk) {
    && (forall path, name :: ReadFile(v, d, path, name) == ReadFile(v, d', path, name))
    && (forall path :: ReadDir(v, d, path) == ReadDir(v, d', path))
  }

  lemma LookupsChildren(v: Volume, cat: Catalog, at: Option<Place>, d: Disk, d': Disk)
    requires SameLookups(v, cat, at, d, d')
    ensures SameChildren(v, cat, at, d, d')
  {
    hide Lookup, IsAt;
  }

  /** A file whose path stays clear of `at` reads the same. */
  lemma ReadSame(v: Volume, cat: Catalog, at: Option<Place>, d: Disk, d': Disk, path: seq<Name>, name: Name)
    requires WellFormed(v, d, cat) && SameFiles(v, cat, d, d') && SameLookups(v, cat, at, d, d')
             && Avoids(v, d, path, name, at)
    ensures ReadFile(v, d, path, name) == ReadFile(v, d', path, name)
  {
    hide SameChildren, Passes, Resolve, IsAt, FileBytes, Lookup;
    RootIsThere(v, d, cat);
    LookupsChildren(v, cat, at, d, d');
    ResolveSame(v, cat, at, d, d', Root, path);
    if Resolve(v, d, Root, path).Ok? {
      var dir := Resolve(v, d, Root, path).value;
      ResolvesToDir(v, d, cat, Root, path);
      assert Lookup(v, d, dir, name) == Lookup(v, d', dir, name);
      if Lookup(v, d, dir, name).Ok? && Lookup(v, d, dir, name).value.kind == File {
        FileReadsSame(v, cat, d, d', dir, name);
      }
    }
  }

  lemma RootIsThere(v: Volume, d: Disk, cat: Catalog)
    requires WellFormed(v, d, cat)
    ensures Root in cat.dirs
  {
  }

  lemma FileReadsSame(v: Volume, cat: Catalog, d: Disk, d': Disk, dir: Dir, name: Name)
    requires WellFormed(v, d, cat) && SameFiles(v, cat, d, d') && dir in cat.dirs
    requires Lookup(v, d, dir, name).Ok? && Lookup(v, d, dir, name).value.kind == File
    ensures var e := Lookup(v, d, dir, name).value;
            FileBytes(v.g, d, e.first, e.size) == FileBytes(v.g, d', e.first, e.size)
  {
    hide WellFormed, Lookup, FileBytes, SameEntries, SameContents;
    var e := Lookup(v, d, dir, name).value;
    DirIsThere(v, d, cat, dir, name);
    WellFormedIsLaid(v, d, cat);
    if e.first == 0 {
      EmptySame(v, d, d', e.size);
    } else {
      assert IsFileChain(v, cat, e.first);
      FileSame(v, cat, d, d', e.first, e.size);
    }
  }

  /** The directories `dirs` list the same. */
  ghost predicate SameLists(v: Volume, dirs: set<Dir>, d: Disk, d': Disk) {
    forall dir :: dir in dirs ==> ListDir(v, d, dir) == ListDir(v, d', dir)
  }

  lemma ListsLookups(v: Volume, cat: Catalog, d: Disk, d': Disk)
    requires SameLists(v, cat.dirs, d, d')
    ensures SameLookups(v, cat, None, d, d')
  {
  }

  /** Directories list the same, and files hold the same. */
  ghost predicate Alike(v: Volume, cat: Catalog, d: Disk, d': Disk) {
    SameLists(v, cat.dirs, d, d') && SameFiles(v, cat, d, d')
  }

  /** A volume like a well-formed one reads the same, whatever the path. */
  lemma AlikeReads(v: Volume, cat: Catalog, d: Disk, d': Disk)
    requires Alike(v, cat, d, d') && WellFormed(v, d, cat)
    ensures SameReads(v, d, d') && forall path :: Resolve(v, d, Root, path) == Resolve(v, d', Root, path)
  {
    hide ReadFile, WellFormed, SameFiles, Passes, Resolve, SameLookups, SameChildren, ListDir;
    ListsLookups(v, cat, d, d');
    forall path, name ensures ReadFile(v, d, path, name) == ReadFile(v, d', path, name) {
      PassesNowhere(v, d, Root, path);
      ReadSame(v, cat, None, d, d', path, name);
    }
    RootIsThere(v, d, cat);
    LookupsChildren(v, cat, None, d, d');
    forall path ensures Resolve(v, d, Root, path) == Resolve(v, d', Root, path)
      && ReadDir(v, d, path) == ReadDir(v, d', path)
    {
      PassesNowhere(v, d, Root, path);
      ResolveSame(v, cat, None, d, d', Root, path);
      if Resolve(v, d, Root, path).Ok? {
        ResolvesToDir(v, d, cat, Root, path);
      }
    }
  }

  /** A volume that mirrors a well-formed one is like it. */
  lemma MirrorsAlike(v: Volume, cat: Catalog, d: Disk, d': Disk)
    requires Mirrors(v, cat, d, d') && WellFormed(v, d, cat)
    ensures Alike(v, cat, d, d')
  {
    hide WellFormed, Mirrors, SameFiles, SameLists;
    MirrorsLists(v, cat, d, d');
    FilesMirror(v, cat, d, d');
  }

  lemma MirrorsLists(v: Volume, cat: Catalog, d: Disk, d': Disk)
    requires Mirrors(v, cat, d, d') && WellFormed(v, d, cat)
    ensures SameLists(v, cat.dirs, d, d')
  {
    hide SameEntries, SameContents, ListDir;
    WellFormedIsLaid(v, d, cat);
    SameLinksLaid(v, cat, d, d');
    forall dir | dir in cat.dirs ensures ListDir(v, d, dir) == ListDir(v, d', dir) {
      MirrorsDir(v, cat, d, d', dir);
      ListsDir(v, d, cat, dir);
      ListsDir(v, d', cat, dir);
    }
  }

  lemma {:induction false} PassesSame(v: Volume, cat: Catalog, d: Disk, d': Disk, from: Dir, path: seq<Name>,
                                      at: Option<Place>)
    requires WellFormed(v, d, cat) && from in cat.dirs && SameChildren(v, cat, None, d, d')
    ensures Passes(v, d, from, path, at) == Passes(v, d', from, path, at)
    ensures Resolve(v, d, from, path) == Resolve(v, d', from, path)
    decreases path
  {
    hide WellFormed, Lookup, IsAt;
    if path != [] {
      assert !IsAt(v, from, path[0], None) by { NowhereAt(v, from, path[0]); }
      if Child(v, d, from, path[0]).Ok? {
        DirIsThere(v, d, cat, from, path[0]);
        PassesSame(v, cat, d, d', Child(v, d, from, path[0]).value, path[1..], at);
      }
    }
  }

  lemma NowhereAt(v: Volume, dir: Dir, name: Name)
    ensures !IsAt(v, dir, name, None)
  {
  }

  /** What stays the same elsewhere after a change, does so compared to a state like the one before
      it. */
  lemma AlikeThenElsewhere(v: Volume, cat: Catalog, at: Option<Place>, d: Disk, d': Disk, d'': Disk)
    requires WellFormed(v, d, cat) && Alike(v, cat, d, d') && SameElsewhere(v, at, d', d'')
    ensures SameElsewhere(v, at, d, d'')
  {
    hide WellFormed, ReadFile, ReadDir, SameLookups, SameLists, SameFiles, SameChildren, Passes, Resolve, IsAt;
    ListsLookups(v, cat, d, d');
    LookupsChildren(v, cat, None, d, d');
    AlikeReads(v, cat, d, d');
    RootIsThere(v, d, cat);
    forall path, name | Avoids(v, d, path, name, at) ensures ReadFile(v, d, path, name) == ReadFile(v, d'', path, name)
    {
      PassesSame(v, cat, d, d', Root, path, at);
      assert Avoids(v, d', path, name, at);
    }
    forall path | IsClear(v, d, path, at) ensures ReadDir(v, d, path) == ReadDir(v, d'', path) {
      PassesSame(v, cat, d, d', Root, path, at);
      assert IsClear(v, d', path, at);
    }
  }

  lemma FilesMirror(v: Volume, cat: Catalog, d: Disk, d': Disk)
    requires Mirrors(v, cat, d, d')
    ensures SameFiles(v, cat, d, d')
  {
  }

  /* Directories form a tree: every way to one is as long. */

  lemma {:induction false} ResolveAppend(v: Volume, d: Disk, from: Dir, path: seq<Name>, name: Name)
    ensures var dir := Resolve(v, d, from, path);
            Resolve(v, d, from, path + [name]) == if dir.Err? then dir else Child(v, d, dir.value, name)
    decreases path
  {
    hide Child;
    if path == [] {
      assert path + [name] == [name];
    } else {
      assert (path + [name])[1..] == path[1..] + [name];
      if Child(v, d, from, path[0]).Ok? {
        ResolveAppend(v, d, Child(v, d, from, path[0]).value, path[1..], name);
      }
    }
  }

  lemma HeadsFrom2(v: Volume, d: Disk, cat: Catalog)
    requires WellFormed(v, d, cat)
    ensures forall h :: h in cat.chains ==> h >= 2
  {
    hide WellLaid, IsChain;
    forall h | h in cat.chains ensures h >= 2 {
      ChainFrom2(v, d, cat, h);
      assert cat.chains[h][0] == h;
    }
  }

  /** An entry that leads to a directory, which is not the root. */
  lemma LeadsThere(v: Volume, d: Disk, cat: Catalog, dir: Dir, name: Name) returns (i: nat)
    requires WellFormed(v, d, cat) && dir in cat.dirs && Child(v, d, dir, name).Ok?
    ensures i < |DirEntries(v, d, cat, dir)|
    ensures var first := DirEntries(v, d, cat, dir)[i].entry.first;
            first != 0 && Child(v, d, dir, name) == Ok(Sub(first))
    ensures Child(v, d, dir, name).value in cat.dirs
  {
    hide EntriesApart, DirsTidy, DirEntries, ListDir;
    ListsDir(v, d, cat, dir);
    DirIsThere(v, d, cat, dir, name);
    i := Find(v, DirEntries(v, d, cat, dir), name);
    HeadsFrom2(v, d, cat);
  }

  lemma {:induction false} SameDepth(v: Volume, d: Disk, cat: Catalog, path: seq<Name>, path': seq<Name>)
    requires WellFormed(v, d, cat) && Resolve(v, d, Root, path).Ok?
             && Resolve(v, d, Root, path) == Resolve(v, d, Root, path')
    ensures |path| == |path'|
    decreases |path| + |path'|
  {
    hide WellFormed, Resolve, Child, DirEntries;
    if path == [] || path' == [] {
      NotToRoot(v, d, cat, path);
      NotToRoot(v, d, cat, path');
    } else {
      var from, i := LastStep(v, d, cat, path);
      var from', i' := LastStep(v, d, cat, path');
      OneWay(v, d, cat, from, i, from', i');
      SameDepth(v, d, cat, path[..|path| - 1], path'[..|path'| - 1]);
    }
  }

  lemma OneWay(v: Volume, d: Disk, cat: Catalog, dir: Dir, i: nat, dir': Dir, i': nat)
    requires WellFormed(v, d, cat) && dir in cat.dirs && dir' in cat.dirs
    requires i < |DirEntries(v, d, cat, dir)| && i' < |DirEntries(v, d, cat, dir')|
    requires DirEntries(v, d, cat, dir)[i].entry.first == DirEntries(v, d, cat, dir')[i'].entry.first != 0
    ensures dir == dir'
  {
    hide DirEntries, PointsWell, WellLaid, Tidy;
  }

  /** The last step of a path, through an entry of a directory there is. */
  lemma LastStep(v: Volume, d: Disk, cat: Catalog, path: seq<Name>) returns (dir: Dir, i: nat)
    requires WellFormed(v, d, cat) && path != [] && Resolve(v, d, Root, path).Ok?
    ensures Resolve(v, d, Root, path[..|path| - 1]) == Ok(dir) && dir in cat.dirs && i < |DirEntries(v, d, cat, dir)|
    ensures var first := DirEntries(v, d, cat, dir)[i].entry.first;
            first != 0 && Resolve(v, d, Root, path) == Ok(Sub(first))
  {
    hide WellFormed, Child, DirEntries;
    var init, last := path[..|path| - 1], path[|path| - 1];
    assert path == init + [last];
    ResolveAppend(v, d, Root, init, last);
    RootIsThere(v, d, cat);
    ResolvesToDir(v, d, cat, Root, init);
    dir := Resolve(v, d, Root, init).value;
    i := LeadsThere(v, d, cat, dir, last);
  }

  lemma NotToRoot(v: Volume, d: Disk, cat: Catalog, path: seq<Name>)
    requires WellFormed(v, d, cat)
    ensures Resolve(v, d, Root, path) == Ok(Root) <==> path == []
  {
    hide WellFormed, Child, DirEntries;
    if path != [] && Resolve(v, d, Root, path).Ok? {
      var dir, i := LastStep(v, d, cat, path);
    }
  }

  lemma {:induction false} PassesAt(v: Volume, d: Disk, from: Dir, path: seq<Name>, at: Place) returns (k: nat)
    requires Passes(v, d, from, path, Some(at))
    ensures k < |path| && Resolve(v, d, from, path[..k]) == Ok(at.dir)
    decreases path
  {
    hide Child;
    if IsAt(v, from, path[0], Some(at)) {
      k := 0;
    } else {
      k := PassesAt(v, d, Child(v, d, from, path[0]).value, path[1..], at);
      k := k + 1;
      assert path[..k][1..] == path[1..][..k - 1];
    }
  }

  /** No way to a directory leads through it. */
  lemma NoWayBack(v: Volume, d: Disk, cat: Catalog, dir: Dir, keys: set<Name>, path: seq<Name>)
    requires WellFormed(v, d, cat) && Resolve(v, d, Root, path) == Ok(dir)
    ensures !Passes(v, d, Root, path, Some(Place(dir, keys)))
  {
    hide WellFormed, Passes, Resolve;
    if Passes(v, d, Root, path, Some(Place(dir, keys))) {
      var k := PassesAt(v, d, Root, path, Place(dir, keys));
      SameDepth(v, d, cat, path[..k], path);
    }
  }

  /* One entry more, less or different. */

  predicate NoMatch(v: Volume, entries: seq<Located>, key: Name) {
    forall i :: 0 <= i < |entries| ==> v.fold(entries[i].entry.name) != key
  }

  lemma FindIs(v: Volume, entries: seq<Located>, name: Name, i: nat)
    requires i <= |entries| && NoMatch(v, entries[..i], v.fold(name))
    requires i < |entries| ==> v.fold(entries[i].entry.name) == v.fold(name)
    ensures Find(v, entries, name) == i
  {
  }

  lemma PickReplaced(v: Volume, entries: seq<Located>, m: nat, e: Located, name: Name)
    requires m < |entries| && e.entry.name == entries[m].entry.name
    ensures Find(v, entries[m := e], name) == Find(v, entries, name)
    ensures v.fold(name) != v.fold(e.entry.name) ==> Pick(v, entries[m := e], name) == Pick(v, entries, name)
  {
    assert forall k :: 0 <= k < |entries| ==> entries[m := e][k].entry.name == entries[k].entry.name;
  }
}
