/** Chains and directories coming into use and going out of it. */
module FatCatalogs {
  import opened Bytes
  import opened FatLayout
  import opened FatChains
  import opened FatNames
  import opened FatDirectory
  import opened FatDirectoryChanges
  import opened FatTree
  import opened FatWrites
  import opened FatReads
  import opened FatRewrites

  function WithChain(cat: Catalog, ch: seq<nat>): Catalog
    requires ch != []
  {
    cat.(chains := cat.chains[ch[0] := ch])
  }

  function WithoutChain(cat: Catalog, h: nat): Catalog { cat.(chains := cat.chains - {h}) }

  function WithDir(cat: Catalog, h: nat): Catalog { cat.(dirs := cat.dirs + {Sub(h)}) }

  function WithoutDir(cat: Catalog, h: nat): Catalog { cat.(dirs := cat.dirs - {Sub(h)}) }

  /** Two catalogs under which the same directories hold the same. */
  ghost predicate SameDirs(v: Volume, d: Disk, cat: Catalog, cat': Catalog, dirs: set<Dir>) {
    forall dir ::
        dir in dirs ==>
          DirBlocks(v, d, cat, dir) == DirBlocks(v, d, cat', dir)
            && DirEntries(v, d, cat, dir) == DirEntries(v, d, cat', dir)
  }

  lemma ChainsSameDirs(v: Volume, d: Disk, cat: Catalog, cat': Catalog, dirs: set<Dir>)
    requires forall dir :: dir in dirs && HomeOf(v, dir).Some? ==>
               var h := HomeOf(v, dir).value; h in cat.chains && h in cat'.chains && cat.chains[h] == cat'.chains[h]
    ensures SameDirs(v, d, cat, cat', dirs)
  {
  }

  /** The rest of being well formed carries over between catalogs with the same directories. */
  lemma SameDirsCarry(v: Volume, d: Disk, cat: Catalog, cat': Catalog)
    requires WellFormed(v, d, cat) && WellLaid(v, d, cat') && cat'.dirs <= cat.dirs
             && SameDirs(v, d, cat, cat', cat'.dirs)
    ensures EntriesApart(v, d, cat') && DirsTidy(v, d, cat')
  {
    hide WellLaid, DirBlocks, DirEntries, Tidy, EntriesPointWell;
    forall a, i, b, j |
      && a in cat'.dirs && 0 <= i < |DirEntries(v, d, cat', a)|
      && b in cat'.dirs && 0 <= j < |DirEntries(v, d, cat', b)|
      && DirEntries(v, d, cat', a)[i].entry.first == DirEntries(v, d, cat', b)[j].entry.first != 0
      ensures a == b && i == j
    {
      assert DirEntries(v, d, cat, a)[i].entry.first == DirEntries(v, d, cat, b)[j].entry.first;
    }
  }

  ghost predicate PointsSame(v: Volume, d: Disk, cat: Catalog, cat': Catalog) {
    forall dir, i ::
      dir in cat'.dirs && 0 <= i < |DirEntries(v, d, cat, dir)|
      && PointsWell(v, cat, DirEntries(v, d, cat, dir)[i].entry)
      ==> PointsWell(v, cat', DirEntries(v, d, cat, dir)[i].entry)
  }

  lemma PointsCarry(v: Volume, d: Disk, cat: Catalog, cat': Catalog)
    requires EntriesPointWell(v, d, cat) && cat'.dirs <= cat.dirs && SameDirs(v, d, cat, cat', cat'.dirs)
             && PointsSame(v, d, cat, cat')
    ensures EntriesPointWell(v, d, cat')
  {
  }

  /** Entries point at chains in use. */
  lemma NewHeadUnreferenced(v: Volume, d: Disk, cat: Catalog, h: nat)
    requires WellFormed(v, d, cat) && h !in cat.chains
    ensures Unreferenced(v, d, cat, h)
  {
  }

  lemma HeadIsOwned(v: Volume, d: Disk, cat: Catalog, h: nat)
    requires WellLaid(v, d, cat) && h in cat.chains
    ensures Owned(cat, h)
  {
    ChainFrom2(v, d, cat, h);
    assert cat.chains[h][0] in cat.chains[h];
  }

  /** A chain of clusters nobody owns comes into use. */
  lemma AddChain(v: Volume, d: Disk, cat: Catalog, ch: seq<nat>)
    requires WellFormed(v, d, cat) && IsChain(v.g, d, ch) && NoneOwned(cat, Elements(ch))
    ensures WellFormed(v, d, WithChain(cat, ch))
    ensures ch[0] !in cat.chains && Unreferenced(v, d, WithChain(cat, ch), ch[0])
    ensures SameDirs(v, d, cat, WithChain(cat, ch), cat.dirs)
  {
    hide EntriesPointWell, EntriesApart, DirsTidy, Unreferenced, SameDirs;
    var cat' := WithChain(cat, ch);
    assert ch[0] in Elements(ch);
    if ch[0] in cat.chains {
      HeadIsOwned(v, d, cat, ch[0]);
    }
    AddChainLaid(v, d, cat, ch);
    ChainsSameDirs(v, d, cat, cat', cat.dirs);
    SameDirsCarry(v, d, cat, cat');
    PointsMore(v, d, cat, cat');
    PointsCarry(v, d, cat, cat');
    NewHeadUnreferenced(v, d, cat, ch[0]);
    UnreferencedCarries(v, d, cat, cat', ch[0]);
  }

  lemma AddChainLaid(v: Volume, d: Disk, cat: Catalog, ch: seq<nat>)
    requires WellLaid(v, d, cat) && IsChain(v.g, d, ch) && NoneOwned(cat, Elements(ch)) && ch[0] !in cat.chains
    ensures WellLaid(v, d, WithChain(cat, ch))
  {
    hide FatEntry;
    var cat' := WithChain(cat, ch);
    forall h, h', c | h in cat'.chains && h' in cat'.chains && c in cat'.chains[h] && c in cat'.chains[h']
      ensures h == h'
    {
      if h != h' && (h == ch[0] || h' == ch[0]) {
        var other := if h == ch[0] then h' else h;
        assert Owned(cat, c) by { assert other in cat.chains && c in cat.chains[other]; }
      }
    }
  }

  lemma PointsMore(v: Volume, d: Disk, cat: Catalog, cat': Catalog)
    requires cat.dirs == cat'.dirs && cat.chains.Keys <= cat'.chains.Keys
    ensures PointsSame(v, d, cat, cat')
  {
  }

  lemma UnreferencedCarries(v: Volume, d: Disk, cat: Catalog, cat': Catalog, h: nat)
    requires cat'.dirs <= cat.dirs && SameDirs(v, d, cat, cat', cat'.dirs) && Unreferenced(v, d, cat, h)
    ensures Unreferenced(v, d, cat', h)
  {
  }

  /** A chain no entry points at goes out of use. */
  lemma DropChain(v: Volume, d: Disk, cat: Catalog, h: nat)
    requires WellFormed(v, d, cat) && IsFileChain(v, cat, h) && Unreferenced(v, d, cat, h)
    ensures WellFormed(v, d, WithoutChain(cat, h))
    ensures SameDirs(v, d, cat, WithoutChain(cat, h), cat.dirs)
    ensures NoneOwned(WithoutChain(cat, h), Elements(cat.chains[h]))
  {
    hide EntriesPointWell, EntriesApart, DirsTidy, IsChain, SameDirs;
    var cat' := WithoutChain(cat, h);
    ChainFrom2(v, d, cat, h);
    ChainsSameDirs(v, d, cat, cat', cat.dirs);
    SameDirsCarry(v, d, cat, cat');
    PointsElsewhere(v, d, cat, cat', h);
    PointsCarry(v, d, cat, cat');
  }

  lemma PointsElsewhere(v: Volume, d: Disk, cat: Catalog, cat': Catalog, h: nat)
    requires Unreferenced(v, d, cat, h) && h != 0 && cat'.dirs <= cat.dirs
    requires cat'.chains.Keys >= cat.chains.Keys - {h} && cat'.dirs >= cat.dirs - {Sub(h)}
    ensures PointsSame(v, d, cat, cat')
  {
  }

  /** A directory no entry points at goes out of use. */
  lemma DropDir(v: Volume, d: Disk, cat: Catalog, h: nat)
    requires WellFormed(v, d, cat) && Sub(h) in cat.dirs && Unreferenced(v, d, cat, h)
    ensures WellFormed(v, d, WithoutDir(cat, h))
    ensures IsFileChain(v, WithoutDir(cat, h), h) && Unreferenced(v, d, WithoutDir(cat, h), h)
    ensures SameDirs(v, d, cat, WithoutDir(cat, h), WithoutDir(cat, h).dirs)
  {
    hide EntriesPointWell, EntriesApart, DirsTidy, IsChain, SameDirs, Unreferenced;
    var cat' := WithoutDir(cat, h);
    assert HomeOf(v, Sub(h)) == Some(h);
    ChainFrom2(v, d, cat, h);
    ChainsSameDirs(v, d, cat, cat', cat'.dirs);
    SameDirsCarry(v, d, cat, cat');
    PointsElsewhere(v, d, cat, cat', h);
    PointsCarry(v, d, cat, cat');
    UnreferencedCarries(v, d, cat, cat', h);
  }

  /** A chain no entry points at becomes an empty directory. */
  lemma AddDir(v: Volume, d: Disk, cat: Catalog, h: nat)
    requires WellFormed(v, d, cat) && IsFileChain(v, cat, h) && Unreferenced(v, d, cat, h)
    requires DirEntries(v, d, cat, Sub(h)) == [] && Tidy(Slots(DirBlocks(v, d, cat, Sub(h))))
    ensures WellFormed(v, d, WithDir(cat, h)) && Unreferenced(v, d, WithDir(cat, h), h)
    ensures SameDirs(v, d, cat, WithDir(cat, h), WithDir(cat, h).dirs)
  {
    hide IsChain, DirBlocks, DirEntries, Tidy;
    var cat' := WithDir(cat, h);
    ChainFrom2(v, d, cat, h);
    AddDirSame(v, d, cat, h);
    forall dir, i | dir in cat'.dirs && 0 <= i < |DirEntries(v, d, cat', dir)|
      ensures PointsWell(v, cat', DirEntries(v, d, cat', dir)[i].entry)
    {
      assert dir in cat.dirs;
      assert PointsWell(v, cat, DirEntries(v, d, cat, dir)[i].entry);
    }
    forall a, i, b, j |
      && a in cat'.dirs && 0 <= i < |DirEntries(v, d, cat', a)|
      && b in cat'.dirs && 0 <= j < |DirEntries(v, d, cat', b)|
      && DirEntries(v, d, cat', a)[i].entry.first == DirEntries(v, d, cat', b)[j].entry.first != 0
      ensures a == b && i == j
    {
      assert a in cat.dirs && b in cat.dirs;
      assert DirEntries(v, d, cat, a)[i].entry.first == DirEntries(v, d, cat, b)[j].entry.first;
    }
  }

  lemma AddDirSame(v: Volume, d: Disk, cat: Catalog, h: nat)
    requires WellLaid(v, d, cat) && h in cat.chains
    ensures SameDirs(v, d, cat, WithDir(cat, h), WithDir(cat, h).dirs)
  {
    hide ChainsEnd, ChainsApart, SameDirs;
    ChainsSameDirs(v, d, cat, WithDir(cat, h), WithDir(cat, h).dirs);
  }
}
