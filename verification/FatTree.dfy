/** The tree of files and directories on a volume: what reading a path gives, and when a volume is
    well formed. */
module FatTree {
  import opened Bytes
  import opened FatLayout
  import opened FatChains
  import opened FatNames
  import opened FatDirectory
  import opened FatDirectoryChanges

  /** A mounted volume; names match when `fold` takes them to the same. */
  datatype Volume = Volume(g: Geometry, fold: Name -> Name)

  datatype Dir = Root | Sub(first: nat)

  /* Slots of blocks. */

  const SLOTS: nat := 16

  function SlotIn(b: Block, i: nat): Slot
    requires i < SLOTS
  {
    b[32 * i..32 * i + 32]
  }

  function BlockSlots(b: Block): (s: seq<Slot>)
    ensures |s| == SLOTS
  {
    seq(SLOTS, i requires 0 <= i < SLOTS => SlotIn(b, i))
  }

  function Slots(blocks: seq<Block>): (s: seq<Slot>)
    ensures |s| == 16 * |blocks|
  {
    if blocks == [] then [] else Slots(blocks[..|blocks| - 1]) + BlockSlots(blocks[|blocks| - 1])
  }

  lemma {:induction false} SlotsAt(blocks: seq<Block>, k: nat)
    requires k < 16 * |blocks|
    ensures Slots(blocks)[k] == SlotIn(blocks[k / 16], k % 16)
  {
    var n := |blocks| - 1;
    if k < 16 * n {
      SlotsAt(blocks[..n], k);
    }
  }

  lemma {:induction false} SlotsAppend(a: seq<Block>, b: seq<Block>)
    ensures Slots(a + b) == Slots(a) + Slots(b)
  {
    if b == [] {
      assert a + b == a;
    } else {
      var init := b[..|b| - 1];
      SlotsAppend(a, init);
      assert (a + b)[..|a + b| - 1] == a + init;
    }
  }

  /* Reading. */

  /** The entries in a directory's blocks. */
  function EntriesIn(v: Volume, blocks: seq<Block>): seq<Located> {
    Entries(v.g.fatType, Slots(blocks))
  }

  function RegionSectors(start: nat, n: nat): (s: seq<nat>)
    ensures |s| == n
  {
    seq(n, i requires 0 <= i => var sector: nat := start + i; sector)
  }

  /** The sectors of a directory, found by following its chain. */
  function FindSectors(v: Volume, d: Disk, dir: Dir): Result<seq<nat>> {
    if dir.Root? && v.g.root.Fixed? then Ok(RegionSectors(v.g.root.start, v.g.root.sectors))
    else
      var first := if dir.Root? then v.g.root.first else dir.first;
      var chain := Walk(v.g, d, Some(first), [], None);
      if chain.Err? then Err(chain.error)
      else
        WalkedFrom2(v.g, d, Some(first), [], None);
        Ok(Sectors(v.g, chain.value))
  }

  function ListDir(v: Volume, d: Disk, dir: Dir): Result<seq<Located>> {
    var sectors :- FindSectors(v, d, dir);
    Ok(EntriesIn(v, Blocks(d, sectors)))
  }

  /** The first entry that matches `name`, or how many there are if none does. */
  function Find(v: Volume, entries: seq<Located>, name: Name): (i: nat)
    ensures i <= |entries|
    ensures i < |entries| ==> v.fold(entries[i].entry.name) == v.fold(name)
    ensures forall j :: 0 <= j < i ==> v.fold(entries[j].entry.name) != v.fold(name)
  {
    if entries == [] || v.fold(entries[0].entry.name) == v.fold(name) then 0 else 1 + Find(v, entries[1..], name)
  }

  function Pick(v: Volume, entries: seq<Located>, name: Name): Result<DirEntry> {
    var i := Find(v, entries, name);
    if i < |entries| then Ok(entries[i].entry) else Err(NotFound)
  }

  function Lookup(v: Volume, d: Disk, dir: Dir, name: Name): Result<DirEntry> {
    var entries :- ListDir(v, d, dir);
    Pick(v, entries, name)
  }

  function DirOf(e: DirEntry): Dir { if e.first == 0 then Root else Sub(e.first) }

  /** The directory `name` in `dir`. */
  function Child(v: Volume, d: Disk, dir: Dir, name: Name): Result<Dir> {
    var e :- Lookup(v, d, dir, name);
    if e.kind != Directory then Err(NotADirectory) else Ok(DirOf(e))
  }

  /** The directory at `path` below `from`. */
  function Resolve(v: Volume, d: Disk, from: Dir, path: seq<Name>): Result<Dir>
    decreases path
  {
    if path == [] then Ok(from)
    else
      var child :- Child(v, d, from, path[0]);
      Resolve(v, d, child, path[1..])
  }

  /** What reading the file `name` in the directory at `path` gives. */
  function ReadFile(v: Volume, d: Disk, path: seq<Name>, name: Name): Result<seq<byte>> {
    var dir :- Resolve(v, d, Root, path);
    var e :- Lookup(v, d, dir, name);
    if e.kind != File then Err(NotAFile) else FileBytes(v.g, d, e.first, e.size)
  }

  /** Entries without the slots they take up. */
  function Shown(entries: seq<Located>): (r: seq<DirEntry>)
    ensures |r| == |entries| && forall i :: 0 <= i < |r| ==> r[i] == entries[i].entry
  {
    seq(|entries|, i requires 0 <= i < |entries| => entries[i].entry)
  }

  /** What listing the directory at `path` gives. */
  function ReadDir(v: Volume, d: Disk, path: seq<Name>): Result<seq<DirEntry>> {
    var dir :- Resolve(v, d, Root, path);
    var entries :- ListDir(v, d, dir);
    Ok(Shown(entries))
  }

  /* Well-formed volumes. */

  /** The chains in use, by first cluster, and the directories there are. */
  datatype Catalog = Catalog(chains: map<nat, seq<nat>>, dirs: set<Dir>)

  function HomeOf(v: Volume, dir: Dir): Option<nat> {
    if dir.Sub? then Some(dir.first) else if v.g.root.Fixed? then None else Some(v.g.root.first)
  }

  /** Every chain in use is terminated. */
  ghost predicate ChainsEnd(v: Volume, d: Disk, cat: Catalog) {
    forall h :: h in cat.chains ==> IsChain(v.g, d, cat.chains[h]) && cat.chains[h][0] == h
  }

  /** No two of them share a cluster. */
  ghost predicate ChainsApart(cat: Catalog) {
    forall h, h', c :: h in cat.chains && h' in cat.chains && c in cat.chains[h] && c in cat.chains[h'] ==> h == h'
  }

  ghost predicate DirsHaveHomes(v: Volume, cat: Catalog) {
    && Root in cat.dirs
    && (forall dir :: dir in cat.dirs && HomeOf(v, dir).Some? ==> HomeOf(v, dir).value in cat.chains)
    && (v.g.root.RootChain? ==> Sub(v.g.root.first) !in cat.dirs)
  }

  ghost predicate WellLaid(v: Volume, d: Disk, cat: Catalog) {
    v.g.Sound() && ChainsEnd(v, d, cat) && ChainsApart(cat) && DirsHaveHomes(v, cat)
  }

  ghost function DirSectors(v: Volume, cat: Catalog, dir: Dir): (s: seq<nat>) {
    var home := HomeOf(v, dir);
    if home.None? then (if v.g.root.Fixed? then RegionSectors(v.g.root.start, v.g.root.sectors) else [])
    else if home.value in cat.chains && AllFrom2(cat.chains[home.value]) then Sectors(v.g, cat.chains[home.value])
    else []
  }

  ghost function DirBlocks(v: Volume, d: Disk, cat: Catalog, dir: Dir): seq<Block> {
    Blocks(d, DirSectors(v, cat, dir))
  }

  ghost function DirEntries(v: Volume, d: Disk, cat: Catalog, dir: Dir): seq<Located> {
    EntriesIn(v, DirBlocks(v, d, cat, dir))
  }

  /** An entry points at a chain of its own kind, or an empty file's at none. */
  ghost predicate PointsWell(v: Volume, cat: Catalog, e: DirEntry) {
    if e.kind == Directory then Sub(e.first) in cat.dirs
    else e.first != 0 ==> e.first in cat.chains && Sub(e.first) !in cat.dirs && HomeOf(v, Root) != Some(e.first)
  }

  ghost predicate EntriesPointWell(v: Volume, d: Disk, cat: Catalog) {
    forall dir, i :: dir in cat.dirs && 0 <= i < |DirEntries(v, d, cat, dir)| ==>
        PointsWell(v, cat, DirEntries(v, d, cat, dir)[i].entry)
  }

  /** No two entries point at the same chain. */
  ghost predicate EntriesApart(v: Volume, d: Disk, cat: Catalog) {
    forall dir, i, dir', i' ::
      && dir in cat.dirs && 0 <= i < |DirEntries(v, d, cat, dir)|
      && dir' in cat.dirs && 0 <= i' < |DirEntries(v, d, cat, dir')|
      && DirEntries(v, d, cat, dir)[i].entry.first == DirEntries(v, d, cat, dir')[i'].entry.first != 0
      ==> dir == dir' && i == i'
  }

  ghost predicate DirsTidy(v: Volume, d: Disk, cat: Catalog) {
    forall dir :: dir in cat.dirs ==> Tidy(Slots(DirBlocks(v, d, cat, dir)))
  }

  /** A volume whose chains and entries are those of `cat`, each owned once. */
  ghost predicate WellFormed(v: Volume, d: Disk, cat: Catalog) {
    && WellLaid(v, d, cat)
    && EntriesPointWell(v, d, cat)
    && EntriesApart(v, d, cat)
    && DirsTidy(v, d, cat)
  }

  ghost predicate Owned(cat: Catalog, c: nat) {
    exists h :: h in cat.chains && c in cat.chains[h]
  }

  /** Clusters in use are not free. */
  lemma OwnedNotFree(v: Volume, d: Disk, cat: Catalog, c: nat)
    requires WellLaid(v, d, cat) && Owned(cat, c)
    ensures v.g.IsCluster(c) && FatEntry(v.g, d, c) != 0
  {
    var h :| h in cat.chains && c in cat.chains[h];
    var ch := cat.chains[h];
    assert IsChain(v.g, d, ch);
    var i :| 0 <= i < |ch| && ch[i] == c;
    if i < |ch| - 1 {
      assert Next(v.g, d, ch[i]) == Link(ch[i + 1]);
      ClustersAreNoMarkers(v.g, ch[i + 1]);
    }
  }

  lemma ChainFrom2(v: Volume, d: Disk, cat: Catalog, h: nat)
    requires WellLaid(v, d, cat) && h in cat.chains
    ensures IsChain(v.g, d, cat.chains[h]) && AllFrom2(cat.chains[h]) && cat.chains[h][0] == h
  {
  }

  /** On a well-formed volume, directories list what their chains hold. */
  lemma ListsDir(v: Volume, d: Disk, cat: Catalog, dir: Dir)
    requires WellLaid(v, d, cat) && dir in cat.dirs
    ensures FindSectors(v, d, dir) == Ok(DirSectors(v, cat, dir))
    ensures ListDir(v, d, dir) == Ok(DirEntries(v, d, cat, dir))
  {
    hide Sectors, Walk, EntriesIn;
    var home := HomeOf(v, dir);
    if home.Some? {
      ChainFrom2(v, d, cat, home.value);
      var ch := cat.chains[home.value];
      WalkFindsChain(v.g, d, ch, 0);
      assert ch[..0] == [];
    }
  }

  /** Paths lead to directories there are. */
  lemma {:induction false} ResolvesToDir(v: Volume, d: Disk, cat: Catalog, from: Dir, path: seq<Name>)
    requires WellFormed(v, d, cat) && from in cat.dirs && Resolve(v, d, from, path).Ok?
    ensures Resolve(v, d, from, path).value in cat.dirs
    decreases path
  {
    hide WellFormed, Lookup;
    if path != [] {
      DirIsThere(v, d, cat, from, path[0]);
      ResolvesToDir(v, d, cat, Child(v, d, from, path[0]).value, path[1..]);
    }
  }

  lemma DirIsThere(v: Volume, d: Disk, cat: Catalog, dir: Dir, name: Name)
    requires WellFormed(v, d, cat) && dir in cat.dirs && Lookup(v, d, dir, name).Ok?
    ensures var e := Lookup(v, d, dir, name).value;
            PointsWell(v, cat, e) && (e.kind == Directory ==> DirOf(e) in cat.dirs)
  {
    hide EntriesApart, DirsTidy, DirEntries, ListDir;
    ListsDir(v, d, cat, dir);
    var entries := DirEntries(v, d, cat, dir);
    var i := Find(v, entries, name);
    assert PointsWell(v, cat, entries[i].entry);
    if entries[i].entry.first == 0 && entries[i].entry.kind == Directory {
      ChainFrom2(v, d, cat, 0);
    }
  }
}
