/** Volumes that show what removing can come to: an entry in two blocks, and two entries of one name. */
module FatWitnesses {
  import opened Bytes
  import opened FatLayout
  import opened FatChains
  import opened FatNames
  import opened FatLongNames
  import opened FatDirectory
  import opened FatDirectoryChanges
  import opened FatNewEntries
  import opened FatTree
  import opened FatReads
  import opened FatUpdates
  import opened FatImages
  import opened FatSafety
  import opened FatRemovals

  /** The smallest FAT16 volume, with a root directory of 512 slots, where names match as they are. */
  const SMALL: Volume := Volume(Geometry(Fat16, 1, 1, Fixed(33, 32), 65, 4085, 2, 16, None), n => n)

  const EMPTY: Catalog := Catalog(map[], {Root})

  const NO_TIME: Stamp := Stamp(33, 0)

  const NO_CLUSTERS: Extent := Extent(0, 0)

  function RootBlock(slots: seq<Slot>, sector: nat): Block
    requires |slots| == 512 && 33 <= sector < 65
  {
    BlockOf(slots, sector - 33)
  }

  function RootDisk(slots: seq<Slot>): Disk
    requires |slots| == 512
  {
    map i: nat | 33 <= i < 65 :: RootBlock(slots, i)
  }

  /** A root directory with nothing but empty files in it. */
  lemma RootHas(slots: seq<Slot>)
    requires |slots| == 512 && Tidy(slots)
    requires forall i :: 0 <= i < |Entries(Fat16, slots)| ==>
               Entries(Fat16, slots)[i].entry.first == 0 && Entries(Fat16, slots)[i].entry.kind == File
    ensures WellFormed(SMALL, RootDisk(slots), EMPTY) && Slots(DirBlocks(SMALL, RootDisk(slots), EMPTY, Root)) == slots
    ensures DirEntries(SMALL, RootDisk(slots), EMPTY, Root) == Entries(Fat16, slots)
  {
    hide Slots, Entries, Tidy, BlockOf, BlockSlots;
    var d := RootDisk(slots);
    var blocks := DirBlocks(SMALL, d, EMPTY, Root);
    assert SMALL.g.Sound();
    assert |blocks| == 32;
    forall k | 0 <= k < 512 ensures Slots(blocks)[k] == slots[k] {
      SlotsAt(blocks, k);
      assert blocks[k / 16] == BlockOf(slots, k / 16);
      RootSlot(slots, k);
    }
    assert Slots(blocks) == slots;
  }

  lemma RootSlot(slots: seq<Slot>, k: nat)
    requires |slots| == 512 && k < 512
    ensures SlotIn(BlockOf(slots, k / 16), k % 16) == slots[k]
  {
    hide BlockOf;
    var b := BlockOf(slots, k / 16);
    assert BlockSlots(b)[k % 16] == slots[16 * (k / 16)..16 * (k / 16) + 16][k % 16];
  }

  // An entry in two blocks.

  /** `a.b.c`, which has no 8.3 form. */
  const LONG: Name := [0x61, 0x2E, 0x62, 0x2E, 0x63]

  const ALIAS: seq<byte> := [0x41, 0x41, 0x41, 0x41, 0x41, 0x41, 0x41, 0x41, 0x41, 0x41, 0x41]

  const DELETED_SLOT: Slot := Zeros(32)[0 := 0xE5]

  function Deleted15(): (s: seq<Slot>)
    ensures |s| == 15 && forall i :: 0 <= i < 15 ==> s[i] == DELETED_SLOT
  {
    seq(15, i => DELETED_SLOT)
  }

  lemma LongCanBeAdded()
    ensures CanAdd(Fat16, LONG, ALIAS, ATTR_ARCHIVE, NO_CLUSTERS, NO_TIME) && !IsExactShort(LONG) && Pieces(LONG) == 1
            && 0xFFFF !in LONG
  {
    assert FirstDot(LONG) == 1;
    assert Extension(LONG) == [0x62, 0x2E, 0x63];
    assert !IsShortChar(Extension(LONG)[1]);
  }

  function Spanning(): (s: seq<Slot>)
    ensures |s| == 512
  {
    LongCanBeAdded();
    Deleted15() + NewSlots(LONG, ALIAS, ATTR_ARCHIVE, NO_CLUSTERS, NO_TIME) + EndSlots(495)
  }

  lemma SpanningIs()
    ensures Tidy(Spanning())
    ensures Entries(Fat16, Spanning()) == [Located(NewEntry(LONG, ATTR_ARCHIVE, NO_CLUSTERS, NO_TIME), 15, 17)]
    ensures Spanning()[16][..11] == ALIAS && Spanning()[16][12] == 0
  {
    hide ScanTo, NewSlots, CheckName, IsText, IsExactShort, Pieces, EndSlots, NewEntry, ShortEntry, IsPlain, AllPieces;
    LongCanBeAdded();
    var added := NewSlots(LONG, ALIAS, ATTR_ARCHIVE, NO_CLUSTERS, NO_TIME);
    NewSlotsAre(LONG, ALIAS, NO_CLUSTERS, NO_TIME);
    NewSlotsShape(Fat16, LONG, ALIAS, ATTR_ARCHIVE, NO_CLUSTERS, NO_TIME);
    var used := Deleted15() + added;
    NothingRead(Fat16, used);
    assert AllFree(used, 0, 15);
    ScanFree(Fat16, used, 0, 15);
    assert !HasEnd(used, 0, 15);
    assert used[15..17] == added;
    NewEntryReads(Fat16, used, 15, LONG, ALIAS, ATTR_ARCHIVE, NO_CLUSTERS, NO_TIME);
    assert forall i :: 0 <= i < 17 ==> !IsEnd(used[i]);
    assert IsEnd(ZERO_SLOT);
    GrownEntries(Fat16, used, EndSlots(495));
    assert Spanning() == used + EndSlots(495);
    assert Spanning()[16] == added[1];
  }

  lemma NewSlotsAre(name: Name, alias: seq<byte>, x: Extent, stamp: Stamp)
    requires CanAdd(Fat16, name, alias, ATTR_ARCHIVE, x, stamp) && !IsExactShort(name)
    ensures var slots := NewSlots(name, alias, ATTR_ARCHIVE, x, stamp);
            |slots| == Pieces(name) + 1 && Spells(slots[Pieces(name)], alias, 0)
  {
    hide ShortEntry, LongSlots, Checksum, IsExactShort, CheckName, IsText, Pieces;
    NoZeros(name);
    FewPieces(name);
    ShortEntryHolds(Fat16, alias, 0, ATTR_ARCHIVE, x, stamp, name);
  }

  lemma AliasShows(s: Slot)
    requires s[..11] == ALIAS && s[12] == 0
    ensures ShortName(s) != [] && ShortName(s)[0] == 0x41
  {
    assert s[..8] == s[..11][..8];
    assert s[0] == s[..11][0];
    assert TrimEnd(s[..8]) == s[..8];
  }

  /** An entry with its name in one block and its own slot in the next: removing it shows it under its 8.3 name. */
  lemma EntryInTwoBlocks() returns (v: Volume, d: Disk, cat: Catalog, name: Name)
    ensures CanRemove(v, d, cat, Root, name, 0) && HasEntry(v, d, cat, Root, 0)
    ensures RemovalOf(v, d, cat, Root, name, 0).Renames()
  {
    hide WellFormed, Entries, Slots, DirBlocks, DirEntries, ShortName, Tidy, Spanning;
    v, d, cat, name := SMALL, RootDisk(Spanning()), EMPTY, LONG;
    SpanningIs();
    RootHas(Spanning());
    AliasShows(Spanning()[16]);
    OnlyEntry(v, DirEntries(v, d, cat, Root), name);
  }

  lemma OnlyEntry(v: Volume, entries: seq<Located>, name: Name)
    requires |entries| >= 1 && entries[0].entry.name == name
    ensures Find(v, entries, name) == 0
  {
  }

  // Two entries of one name.

  const SHORT: Name := [0x41]

  lemma ShortCanBeAdded()
    ensures CanAdd(Fat16, SHORT, ALIAS, ATTR_ARCHIVE, NO_CLUSTERS, NO_TIME) && IsExactShort(SHORT)
  {
    assert FirstDot(SHORT) == 1;
    assert Base(SHORT) == SHORT && Extension(SHORT) == [];
  }

  function Twice(): (s: seq<Slot>)
    ensures |s| == 512
  {
    ShortCanBeAdded();
    var one := NewSlots(SHORT, ALIAS, ATTR_ARCHIVE, NO_CLUSTERS, NO_TIME);
    one + one + EndSlots(510)
  }

  lemma TwiceIs()
    ensures Tidy(Twice())
    ensures var e := NewEntry(SHORT, ATTR_ARCHIVE, NO_CLUSTERS, NO_TIME);
            Entries(Fat16, Twice()) == [Located(e, 0, 1), Located(e, 1, 2)]
  {
    hide ScanTo, CheckName, IsText, IsExactShort, EndSlots, NewEntry, ShortEntry, IsPlain, AllPieces, ExactShort, IsEnd;
    ShortCanBeAdded();
    var one := NewSlots(SHORT, ALIAS, ATTR_ARCHIVE, NO_CLUSTERS, NO_TIME);
    NewSlotsShape(Fat16, SHORT, ALIAS, ATTR_ARCHIVE, NO_CLUSTERS, NO_TIME);
    var used := one + one;
    NothingRead(Fat16, used);
    assert used[0..1] == one && used[1..2] == one;
    NewEntryReads(Fat16, used, 0, SHORT, ALIAS, ATTR_ARCHIVE, NO_CLUSTERS, NO_TIME);
    NewEntryReads(Fat16, used, 1, SHORT, ALIAS, ATTR_ARCHIVE, NO_CLUSTERS, NO_TIME);
    assert IsEnd(ZERO_SLOT) by { EndIsZero(); }
    GrownEntries(Fat16, used, EndSlots(510));
    assert Twice() == used + EndSlots(510);
  }

  lemma EndIsZero()
    ensures IsEnd(ZERO_SLOT)
  {
  }

  /** Two entries of one name: removing it leaves the second. */
  lemma TwoOfOneName() returns (v: Volume, d: Disk, cat: Catalog, name: Name)
    ensures CanRemove(v, d, cat, Root, name, 0) && HasEntry(v, d, cat, Root, 0)
    ensures !NoMatch(v, RemovalOf(v, d, cat, Root, name, 0).left, v.fold(name))
  {
    hide WellFormed, Entries, Slots, DirBlocks, DirEntries, ShortName, Tidy, Twice, UnderShort;
    v, d, cat, name := SMALL, RootDisk(Twice()), EMPTY, SHORT;
    TwiceIs();
    RootHas(Twice());
    OnlyEntry(v, DirEntries(v, d, cat, Root), name);
    var left := RemovalOf(v, d, cat, Root, name, 0).left;
    assert left[0].entry.name == SHORT;
  }
}
