/** Changes to the allocation table: entries set in place, sectors written one by one, and the free
    clusters. */
module FatTables {
  import opened Bytes
  import opened Arithmetic
  import opened Ranges
  import opened FatLayout
  import opened FatChains
  import opened FatTree
  import opened FatWrites

  /** What may differ from `base`: the FAT entries of clusters `fs` and the contents of clusters `ds`. */
  datatype Scope = Scope(fs: set<nat>, ds: set<nat>, base: Disk)

  ghost predicate Within(g: Geometry, sc: Scope, d: Disk) {
    Only(g, sc.fs, sc.ds, sc.base, d)
  }

  /** Of the contents a device has had, those that are not in `was` are within `sc`. */
  ghost predicate SeenWithin(g: Geometry, sc: Scope, was: set<Disk>, now: set<Disk>) {
    was <= now && forall s :: s in now ==> s in was || Within(g, sc, s)
  }

  /** `b` in sector `sector`, as the FAT of `d` will have it once written. */
  function Overlay(d: Disk, dirty: Option<(nat, Block)>): Disk {
    if dirty.Some? then d[dirty.value.0 := dirty.value.1] else d
  }

  /** All copies of the FAT are the same. */
  ghost predicate CopiesEqual(g: Geometry, d: Disk) {
    forall s: nat, k: nat :: g.InFirstFat(s) && k < g.fatCount ==> ReadBlock(d, CopySector(g, s, k)) == ReadBlock(d, s)
  }

  function CopySector(g: Geometry, s: nat, k: nat): nat { s + k * g.fatSize }

  /** Sectors of copies other than the first, and of different copies, are different. */
  lemma CopyPlaces(g: Geometry, s: nat, k: nat, s': nat, k': nat)
    requires g.Mounted() && g.InFirstFat(s) && g.InFirstFat(s') && k < g.fatCount && k' < g.fatCount
    ensures g.InFats(CopySector(g, s, k))
    ensures CopySector(g, s, k) == CopySector(g, s', k') ==> s == s' && k == k'
  {
    ProductsApart(k, g.fatCount, g.fatSize);
    if k < k' {
      ProductsApart(k, k', g.fatSize);
    } else if k' < k {
      ProductsApart(k', k, g.fatSize);
    }
  }

  lemma OnlyRefl(g: Geometry, fs: set<nat>, ds: set<nat>, d: Disk)
    ensures Only(g, fs, ds, d, d)
  {
  }

  lemma OnlyMore(g: Geometry, fs: set<nat>, ds: set<nat>, fs': set<nat>, ds': set<nat>, d: Disk, d': Disk)
    requires Only(g, fs, ds, d, d') && fs <= fs' && ds <= ds'
    ensures Only(g, fs', ds', d, d')
  {
  }

  /** The entry of `c` in a sector of the FAT. */
  lemma EntryIn(g: Geometry, d: Disk, c: nat)
    ensures g.FatOffset(c) + g.fatType.Width() <= BLOCK_SIZE
    ensures FatEntry(g, d, c) == Decode(g.fatType, ReadBlock(d, g.FatSector(c)), g.FatOffset(c))
  {
    OffsetFits(g, c);
  }

  /** Setting the entry of a cluster in its sector. */
  lemma SetsEntry(g: Geometry, d: Disk, c: nat, value: nat)
    requires g.Sound() && g.IsCluster(c) && value <= g.fatType.Mask()
             && g.FatOffset(c) + g.fatType.Width() <= BLOCK_SIZE
    ensures var d' := d[g.FatSector(c) := PutEntry(g.fatType, ReadBlock(d, g.FatSector(c)), g.FatOffset(c), value)];
            Only(g, {c}, {}, d, d') && FatEntry(g, d', c) == value
  {
    hide Decode, PutEntry;
    var s, at := g.FatSector(c), g.FatOffset(c);
    var b := ReadBlock(d, s);
    var d' := d[s := PutEntry(g.fatType, b, at, value)];
    EntryPlaces(g, c);
    Regions(g);
    OffsetFits(g, c);
    EntryIn(g, d', c);
    PutEntryDecode(g.fatType, b, at, value, at);
    forall c' | g.IsCluster(c') && c' != c ensures FatEntry(g, d, c') == FatEntry(g, d', c') {
      EntryIn(g, d, c');
      EntryIn(g, d', c');
      OffsetFits(g, c');
      if g.FatSector(c') == s {
        PutEntryDecode(g.fatType, b, at, value, g.FatOffset(c'));
      }
    }
  }

  /* Free clusters. */

  function FreeSet(g: Geometry, d: Disk): set<nat> {
    set c | c in Range(2, g.clusterCount + 2) && FatEntry(g, d, c) == 0
  }

  lemma FreeSetSame(g: Geometry, d: Disk, d': Disk, ds: set<nat>)
    requires Only(g, {}, ds, d, d')
    ensures FreeSet(g, d) == FreeSet(g, d')
  {
  }

  lemma FreeSetStays(g: Geometry, d: Disk, d': Disk)
    requires g.Sound() && forall t: nat :: g.InFats(t) ==> ReadBlock(d', t) == ReadBlock(d, t)
    ensures FreeSet(g, d') == FreeSet(g, d)
  {
    hide Decode;
    Regions(g);
    forall c | g.IsCluster(c) ensures FatEntry(g, d', c) == FatEntry(g, d, c) {
      EntryPlaces(g, c);
      EntryIn(g, d, c);
      EntryIn(g, d', c);
    }
  }

  predicate AllClusters(g: Geometry, cs: seq<nat>) {
    forall i :: 0 <= i < |cs| ==> g.IsCluster(cs[i])
  }

  /** Free clusters taken into use, or clusters in use made free, change the number of free ones by
      as many. */
  lemma FreeSetTaken(g: Geometry, d: Disk, d': Disk, cs: seq<nat>, ds: set<nat>)
    requires Only(g, Elements(cs), ds, d, d') && Distinct(cs) && AllClusters(g, cs)
    requires forall i :: 0 <= i < |cs| ==> FatEntry(g, d, cs[i]) == 0 && FatEntry(g, d', cs[i]) != 0
    ensures FreeSet(g, d') == FreeSet(g, d) - Elements(cs) && Elements(cs) <= FreeSet(g, d)
    ensures |FreeSet(g, d')| == |FreeSet(g, d)| - |cs|
  {
    hide FatEntry, ReadBlock, InAny;
    DistinctSize(cs);
    assert FreeSet(g, d') == FreeSet(g, d) - Elements(cs);
    assert FreeSet(g, d) == FreeSet(g, d') + Elements(cs);
  }

  /* Writing a FAT sector to the copies. */

  /** `d` with `block` written to sector `sector` of the first `k` copies of the FAT. */
  function PutCopies(g: Geometry, d: Disk, sector: nat, block: Block, k: nat): Disk {
    if k == 0 then d else PutCopies(g, d, sector, block, k - 1)[CopySector(g, sector, k - 1) := block]
  }

  lemma {:induction false} PutCopiesAt(g: Geometry, d: Disk, sector: nat, block: Block, k: nat, t: nat)
    requires g.Mounted() && g.InFirstFat(sector) && k <= g.fatCount
    ensures ReadBlock(PutCopies(g, d, sector, block, k), t) == ReadBlock(d, t)
            || ReadBlock(PutCopies(g, d, sector, block, k), t) == block
    ensures (forall j: nat :: j < k ==> t != CopySector(g, sector, j)) ==>
            ReadBlock(PutCopies(g, d, sector, block, k), t) == ReadBlock(d, t)
    ensures (exists j: nat :: j < k && t == CopySector(g, sector, j)) ==>
            ReadBlock(PutCopies(g, d, sector, block, k), t) == block
  {
    if k > 0 {
      PutCopiesAt(g, d, sector, block, k - 1, t);
    }
  }

  /** Once the first copy is written, the FAT is what it was to be. Once all are, copies that were equal
      still are. */
  lemma PutCopiesSome(g: Geometry, d: Disk, sector: nat, block: Block, k: nat)
    requires g.Sound() && g.InFirstFat(sector) && 0 < k <= g.fatCount
    ensures var s := PutCopies(g, d, sector, block, k);
            && ReadBlock(s, sector) == block && Only(g, {}, {}, d[sector := block], s)
            && (forall t: nat :: g.InFirstFat(t) && t != sector ==> ReadBlock(s, t) == ReadBlock(d, t))
            && (k == g.fatCount && CopiesEqual(g, d) ==> CopiesEqual(g, s))
  {
    hide PutCopies, Decode;
    var s, e := PutCopies(g, d, sector, block, k), d[sector := block];
    Regions(g);
    forall t: nat | !g.InFats(t) ensures ReadBlock(s, t) == ReadBlock(e, t) {
      PutCopiesAt(g, d, sector, block, k, t);
      forall j: nat | j < k ensures t != CopySector(g, sector, j) {
        CopyPlaces(g, sector, j, sector, j);
      }
    }
    forall t: nat | g.InFirstFat(t) ensures ReadBlock(s, t) == ReadBlock(e, t) {
      PutCopiesFirst(g, d, sector, block, k, t);
    }
    forall c | g.IsCluster(c) ensures FatEntry(g, e, c) == FatEntry(g, s, c) {
      EntryPlaces(g, c);
      EntryIn(g, e, c);
      EntryIn(g, s, c);
    }
    if k == g.fatCount && CopiesEqual(g, d) {
      forall t: nat, k: nat | g.InFirstFat(t) && k < g.fatCount
        ensures ReadBlock(s, CopySector(g, t, k)) == ReadBlock(s, t)
      {
        PutCopiesEqual(g, d, sector, block, t, k);
      }
    }
  }

  lemma PutCopiesFirst(g: Geometry, d: Disk, sector: nat, block: Block, k: nat, t: nat)
    requires g.Mounted() && g.InFirstFat(sector) && g.InFirstFat(t) && 0 < k <= g.fatCount
    ensures ReadBlock(PutCopies(g, d, sector, block, k), t) == if t == sector then block else ReadBlock(d, t)
  {
    hide PutCopies;
    assert CopySector(g, sector, 0) == sector;
    PutCopiesAt(g, d, sector, block, k, t);
    if t != sector {
      forall j: nat | j < k ensures t != CopySector(g, sector, j) {
        CopyPlaces(g, sector, j, t, 0);
      }
    }
  }

  lemma PutCopiesEqual(g: Geometry, d: Disk, sector: nat, block: Block, t: nat, k: nat)
    requires g.Mounted() && g.InFirstFat(sector) && g.InFirstFat(t) && k < g.fatCount && CopiesEqual(g, d)
    ensures var s := PutCopies(g, d, sector, block, g.fatCount); ReadBlock(s, CopySector(g, t, k)) == ReadBlock(s, t)
  {
    hide PutCopies;
    PutCopiesFirst(g, d, sector, block, g.fatCount, t);
    PutCopiesAt(g, d, sector, block, g.fatCount, CopySector(g, t, k));
    if t != sector {
      forall j: nat | j < g.fatCount ensures CopySector(g, t, k) != CopySector(g, sector, j) {
        CopyPlaces(g, sector, j, t, k);
      }
    }
  }

  /** Writes outside the FATs leave the copies as they are. */
  lemma CopiesStay(g: Geometry, d: Disk, d': Disk)
    requires g.Mounted() && CopiesEqual(g, d) && forall t: nat :: g.InFats(t) ==> ReadBlock(d', t) == ReadBlock(d, t)
    ensures CopiesEqual(g, d')
  {
    Regions(g);
    forall t: nat, k: nat | g.InFirstFat(t) && k < g.fatCount
      ensures ReadBlock(d', CopySector(g, t, k)) == ReadBlock(d', t)
    {
      CopyPlaces(g, t, k, t, k);
    }
  }

  /* Searching for free clusters. */

  /** The `i`-th cluster looked at from `start` on, wrapping around. */
  function Probe(g: Geometry, start: nat, i: nat): nat
    requires g.clusterCount > 0 && 2 <= start
  {
    2 + (start - 2 + i) % g.clusterCount
  }

  lemma ProbesDiffer(g: Geometry, start: nat, i: nat, j: nat)
    requires g.clusterCount > 0 && 2 <= start && i < j < g.clusterCount
    ensures g.IsCluster(Probe(g, start, i)) && Probe(g, start, i) != Probe(g, start, j)
  {
    ModDiffers(start - 2 + i, start - 2 + j, g.clusterCount);
  }

  lemma ModDiffers(a: nat, b: nat, n: nat)
    requires n > 0 && a < b < a + n
    ensures a % n != b % n
  {
    FarApart(n, b / n - a / n);
  }

  /** Every cluster is looked at. */
  lemma ProbesAll(g: Geometry, start: nat, c: nat) returns (i: nat)
    requires g.clusterCount > 0 && 2 <= start < g.clusterCount + 2 && g.IsCluster(c)
    ensures i < g.clusterCount && Probe(g, start, i) == c
  {
    i := if start <= c then c - start else c - start + g.clusterCount;
    assert start - 2 + i == if start <= c then c - 2 else c - 2 + g.clusterCount;
    ModWraps(c - 2, g.clusterCount);
  }

  lemma ModWraps(a: nat, n: nat)
    requires a < n
    ensures a % n == a && (a + n) % n == a
  {
  }

  /** Setting an entry within scope stays within scope. */
  lemma SetWithin(g: Geometry, sc: Scope, c: nat, e: Disk, e': Disk)
    requires Within(g, sc, e) && Only(g, {c}, {}, e, e') && c in sc.fs
    ensures Within(g, sc, e')
  {
  }

  lemma SameWithin(g: Geometry, sc: Scope, e: Disk, e': Disk)
    requires Within(g, sc, e) && Only(g, {}, {}, e, e')
    ensures Within(g, sc, e')
  {
  }

  /** What is within a scope around a state within `sc` is within `sc`. */
  lemma SeenSame(g: Geometry, sc: Scope, e: Disk, was: set<Disk>, now: set<Disk>)
    requires Within(g, sc, e) && SeenWithin(g, Scope({}, {}, e), was, now)
    ensures SeenWithin(g, sc, was, now)
  {
  }

  lemma SeenTrans(g: Geometry, sc: Scope, a: set<Disk>, b: set<Disk>, c: set<Disk>)
    requires SeenWithin(g, sc, a, b) && SeenWithin(g, sc, b, c)
    ensures SeenWithin(g, sc, a, c)
  {
  }

  /** The first `n` of the clusters `cs` have the entries `values`. */
  ghost predicate SetTo(g: Geometry, d: Disk, cs: seq<nat>, values: seq<nat>, n: nat)
    requires n <= |cs| == |values|
  {
    forall i :: 0 <= i < n ==> FatEntry(g, d, cs[i]) == values[i]
  }

  lemma SetMore(g: Geometry, d: Disk, e: Disk, e': Disk, cs: seq<nat>, values: seq<nat>, n: nat)
    requires n < |cs| == |values| && Distinct(cs) && AllClusters(g, cs) && SetTo(g, e, cs, values, n)
    requires Only(g, Elements(cs), {}, d, e) && Only(g, {cs[n]}, {}, e, e') && FatEntry(g, e', cs[n]) == values[n]
    ensures SetTo(g, e', cs, values, n + 1) && Only(g, Elements(cs), {}, d, e')
  {
  }

  /** What linking makes of the clusters' entries: each points at the next, the last ends the chain. */
  function Links(g: Geometry, cs: seq<nat>): (links: seq<nat>)
    ensures |links| == |cs|
            && forall i :: 0 <= i < |cs| ==> links[i] == if i + 1 < |cs| then cs[i + 1] else g.fatType.Mask()
  {
    if cs == [] then [] else cs[1..] + [g.fatType.Mask()]
  }

  lemma LinksFit(g: Geometry, cs: seq<nat>)
    requires g.Mounted() && AllClusters(g, cs)
    ensures forall i :: 0 <= i < |cs| ==> Links(g, cs)[i] <= g.fatType.Mask()
  {
  }

  lemma LinksChain(g: Geometry, d: Disk, cs: seq<nat>)
    requires g.Mounted() && cs != [] && AllClusters(g, cs) && SetTo(g, d, cs, Links(g, cs), |cs|)
    ensures IsChain(g, d, cs) && forall i :: 0 <= i < |cs| ==> FatEntry(g, d, cs[i]) != 0
  {
    hide FatEntry;
    forall i | 0 <= i < |cs|
      ensures FatEntry(g, d, cs[i]) != 0 && Next(g, d, cs[i]) == (if i + 1 < |cs| then Link(cs[i + 1]) else End)
    {
      assert FatEntry(g, d, cs[i]) == Links(g, cs)[i];
      if i + 1 < |cs| {
        ClustersAreNoMarkers(g, cs[i + 1]);
      }
    }
  }

  function Unlinked(n: nat): (zeros: seq<nat>)
    ensures |zeros| == n && forall i :: 0 <= i < n ==> zeros[i] == 0
  {
    seq(n, i => 0)
  }

  /** The entries of a chain's clusters are not 0. */
  lemma ChainNotFree(g: Geometry, d: Disk, ch: seq<nat>)
    requires g.Mounted() && IsChain(g, d, ch)
    ensures forall i :: 0 <= i < |ch| ==> FatEntry(g, d, ch[i]) != 0
  {
    hide FatEntry;
    forall i | 0 <= i < |ch| ensures FatEntry(g, d, ch[i]) != 0 {
      if i < |ch| - 1 {
        assert Next(g, d, ch[i]) == Link(ch[i + 1]);
      }
    }
  }

  lemma OnlySame(g: Geometry, a: Disk, b: Disk, e: Disk)
    requires Only(g, {}, {}, a, b) && Only(g, {}, {}, b, e)
    ensures Only(g, {}, {}, a, e)
  {
  }

  lemma OnlyThenSet(g: Geometry, c: nat, a: Disk, b: Disk, e: Disk)
    requires Only(g, {}, {}, a, b) && Only(g, {c}, {}, b, e)
    ensures Only(g, {c}, {}, a, e)
  {
  }

  lemma SetNone(g: Geometry, d: Disk, cs: seq<nat>, values: seq<nat>)
    requires |cs| == |values|
    ensures SetTo(g, d, cs, values, 0)
  {
  }

  lemma SeenRefl(g: Geometry, sc: Scope, seen: set<Disk>)
    ensures SeenWithin(g, sc, seen, seen)
  {
  }

  lemma SetStays(g: Geometry, d: Disk, e: Disk, e': Disk, cs: seq<nat>, values: seq<nat>)
    requires |cs| == |values| && AllClusters(g, cs) && SetTo(g, e, cs, values, |cs|) && Only(g, Elements(cs), {}, d, e)
             && Only(g, {}, {}, e, e')
    ensures SetTo(g, e', cs, values, |cs|) && Only(g, Elements(cs), {}, d, e')
  {
  }

  lemma FreeAll(g: Geometry, d: Disk, cs: seq<nat>)
    requires AllClusters(g, cs) && Elements(cs) <= FreeSet(g, d)
    ensures forall i :: 0 <= i < |cs| ==> FatEntry(g, d, cs[i]) == 0
  {
    hide FatEntry;
    forall i | 0 <= i < |cs| ensures FatEntry(g, d, cs[i]) == 0 {
      assert cs[i] in Elements(cs);
    }
  }

  /** A walk that ends well went along a chain. */
  lemma WalkedChain(g: Geometry, d: Disk, first: nat)
    requires g.Mounted() && Walk(g, d, Some(first), [], None).Ok?
    ensures var ch := Walk(g, d, Some(first), [], None).value;
            IsChain(g, d, ch) && ch[0] == first && AllClusters(g, ch) && Distinct(ch)
              && forall i :: 0 <= i < |ch| ==> FatEntry(g, d, ch[i]) != 0
  {
    hide FatEntry, Walk;
    var ch := Walk(g, d, Some(first), [], None).value;
    WalkIsChain(g, d, Some(first), []);
    ChainIsDistinct(g, d, ch);
    ChainNotFree(g, d, ch);
  }

  /** Zeroing the entries of clusters in use makes them free. */
  lemma FreeSetGiven(g: Geometry, d: Disk, d': Disk, cs: seq<nat>)
    requires SetTo(g, d', cs, Unlinked(|cs|), |cs|) && Only(g, Elements(cs), {}, d, d') && Distinct(cs)
             && AllClusters(g, cs)
    requires forall i :: 0 <= i < |cs| ==> FatEntry(g, d, cs[i]) != 0
    ensures FreeSet(g, d') == FreeSet(g, d) + Elements(cs) && |FreeSet(g, d')| == |FreeSet(g, d)| + |cs|
  {
    hide FatEntry, ReadBlock, InAny;
    FreeSetTaken(g, d', d, cs, {});
  }

  lemma ProbeIsCluster(g: Geometry, start: nat, i: nat)
    requires g.clusterCount > 0 && 2 <= start
    ensures g.IsCluster(Probe(g, start, i))
  {
  }

  lemma FoundAllFree(g: Geometry, d: Disk, start: nat, clusters: seq<nat>)
    requires g.clusterCount > 0 && 2 <= start < g.clusterCount + 2 && Distinct(clusters)
    requires forall j :: 0 <= j < g.clusterCount && FatEntry(g, d, Probe(g, start, j)) == 0 ==>
               Probe(g, start, j) in clusters
    ensures |FreeSet(g, d)| <= |clusters|
  {
    hide FatEntry, Probe;
    forall c | c in FreeSet(g, d) ensures c in Elements(clusters) {
      var j := ProbesAll(g, start, c);
    }
    DistinctSize(clusters);
    SubsetSize(FreeSet(g, d), Elements(clusters));
  }
}
