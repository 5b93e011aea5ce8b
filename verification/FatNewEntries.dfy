/** The slots of new entries, and what they read back as. */
module FatNewEntries {
  import opened Bytes
  import opened FatLayout
  import opened FatNames
  import opened FatLongNames
  import opened FatDirectory
  import opened FatDirectoryChanges

  const ATTR_DIRECTORY: byte := 0x10
  const ATTR_ARCHIVE: byte := 0x20

  /** A FAT date and time. */
  datatype Stamp = Stamp(date: nat, time: nat) {
    predicate Fits() { date < 0x1_0000 && time < 0x1_0000 }
  }

  /** What an entry points at. */
  datatype Extent = Extent(first: nat, size: nat) {
    predicate Fits(t: FatType) { first <= t.Mask() && size < 0x1_0000_0000 }
  }

  function SetModified(s: Slot, stamp: Stamp): (r: Slot)
    requires stamp.Fits()
  {
    Patch(Patch(s, 22, Le16(stamp.time)), 24, Le16(stamp.date))
  }

  function SetExtent(s: Slot, x: Extent): (r: Slot)
    requires x.Fits(Fat32)
  {
    Patch(Patch(Patch(s, 20, Le16(x.first / 0x1_0000)), 26, Le16(x.first % 0x1_0000)), 28, Le32(x.size))
  }

  /** The 8.3 slot of a file or directory created and modified at `stamp`. */
  function ShortEntry(short: seq<byte>, flags: byte, attr: byte, x: Extent, stamp: Stamp): (s: Slot)
    requires |short| == 11 && x.Fits(Fat32) && stamp.Fits()
  {
    var head := Patch(Zeros(DIR_ENTRY_SIZE), 0, short + [attr, flags]);
    var created := Patch(Patch(Patch(head, 14, Le16(stamp.time)), 16, Le16(stamp.date)), 18, Le16(stamp.date));
    SetExtent(SetModified(created, stamp), x)
  }

  /** Setting what an entry points at and when it changed keeps its name, attributes and created
      date, and reads back. */
  lemma SetFields(t: FatType, s: Slot, x: Extent, stamp: Stamp, name: Name)
    requires x.Fits(t) && stamp.Fits()
    ensures var r := SetModified(SetExtent(s, x), stamp);
            && r[..20] == s[..20]
            && EntryOf(t, r, name) == DirEntry(name, if IsDirectory(s) then Directory else File,
                                               if IsDirectory(s) then 0 else x.size, stamp.date, stamp.time, x.first)
  {
    hide U16, U32, Le16, Le32;
    var a := Patch(s, 20, Le16(x.first / 0x1_0000));
    var b := Patch(a, 26, Le16(x.first % 0x1_0000));
    var c := Patch(b, 28, Le32(x.size));
    var d := Patch(c, 22, Le16(stamp.time));
    var r := Patch(d, 24, Le16(stamp.date));
    PatchU16(s, 20, x.first / 0x1_0000, 26);
    PatchU16(a, 26, x.first % 0x1_0000, 20);
    Word(b, c, 20);
    Word(b, c, 26);
    PatchU32(b, 28, x.size, 0);
    PatchU16(c, 22, stamp.time, 20);
    PatchU16(c, 22, stamp.time, 26);
    PatchU16(d, 24, stamp.date, 20);
    PatchU16(d, 24, stamp.date, 22);
    PatchU16(d, 24, stamp.date, 26);
    Long(c, d);
    Long(d, r);
  }

  lemma Word(s: Slot, s': Slot, at: nat)
    requires at + 2 <= 28 && forall i :: 0 <= i < 28 ==> s[i] == s'[i]
    ensures U16(s, at) == U16(s', at)
  {
  }

  lemma Long(s: Slot, s': Slot)
    requires forall i :: 28 <= i < 32 ==> s[i] == s'[i]
    ensures U32(s, 28) == U32(s', 28)
  {
  }

  lemma FieldsCommute(s: Slot, x: Extent, stamp: Stamp)
    requires x.Fits(Fat32) && stamp.Fits()
    ensures SetExtent(SetModified(s, stamp), x) == SetModified(SetExtent(s, x), stamp)
  {
  }

  /** A new 8.3 slot says what it was made for. */
  lemma ShortEntryHolds(t: FatType, short: seq<byte>, flags: byte, attr: byte, x: Extent, stamp: Stamp, name: Name)
    requires |short| == 11 && x.Fits(t) && stamp.Fits()
    ensures var s := ShortEntry(short, flags, attr, x, stamp);
            && Spells(s, short, flags) && s[11] == attr
            && EntryOf(t, s, name) == DirEntry(name, if attr / 0x10 % 2 == 1 then Directory else File,
                                               if attr / 0x10 % 2 == 1 then 0
                                                 else x.size, stamp.date, stamp.time, x.first)
  {
    hide EntryOf, SetExtent, SetModified, Le16, Le32, Patch;
    var head := Patch(Zeros(DIR_ENTRY_SIZE), 0, short + [attr, flags]);
    var created := Patch(Patch(Patch(head, 14, Le16(stamp.time)), 16, Le16(stamp.date)), 18, Le16(stamp.date));
    assert created[..11] == short && created[11] == attr && created[12] == flags;
    FieldsCommute(created, x, stamp);
    SetFields(t, created, x, stamp, name);
    SameHead(created, ShortEntry(short, flags, attr, x, stamp));
  }

  /** The slots of a new entry for `name`, stored under alias `alias` if it has no 8.3 form. */
  function NewSlots(name: Name, alias: seq<byte>, attr: byte, x: Extent, stamp: Stamp): (slots: seq<Slot>)
    requires |alias| == 11 && |name| <= MAX_NAME && x.Fits(Fat32) && stamp.Fits()
    ensures 1 <= |slots|
  {
    if IsExactShort(name) then [ShortEntry(ExactShort(name), CaseFlags(name), attr, x, stamp)]
    else LongSlots(name, Checksum(alias)) + [ShortEntry(alias, 0, attr, x, stamp)]
  }

  predicate IsAlias(short: seq<byte>) {
    |short| == 11 && IsAliasByte(short[0])
  }

  /** Entries that can be added: files and directories with a name that can be stored and read back. */
  predicate CanAdd(t: FatType, name: Name, alias: seq<byte>, attr: byte, x: Extent, stamp: Stamp) {
    && CheckName(name) && IsText(name) && IsAlias(alias)
    && (attr == ATTR_DIRECTORY || attr == ATTR_ARCHIVE) && x.Fits(t) && stamp.Fits()
  }

  function NewEntry(name: Name, attr: byte, x: Extent, stamp: Stamp): DirEntry {
    DirEntry(name, if attr == ATTR_DIRECTORY then Directory else File, if attr == ATTR_DIRECTORY then 0 else x.size,
             stamp.date, stamp.time, x.first)
  }

  lemma {:induction false} PiecesArePieces(name: Name, checksum: byte)
    requires Pieces(name) < 0x20
    ensures AllPieces(LongSlots(name, checksum))
  {
    hide IsLong, IsEnd, IsDeleted, Piece;
    forall j | 0 <= j < Pieces(name)
      ensures var s := LongSlots(name, checksum)[j]; IsLong(s) && !IsEnd(s) && !IsDeleted(s)
    {
      PieceHolds(name, checksum, Pieces(name) - j);
    }
  }

  /** Every slot of a new entry but its last is a piece of its name; the last stands for it. */
  lemma NewSlotsShape(t: FatType, name: Name, alias: seq<byte>, attr: byte, x: Extent, stamp: Stamp)
    requires CanAdd(t, name, alias, attr, x, stamp)
    ensures var slots := NewSlots(name, alias, attr, x, stamp);
            && AllPieces(slots[..|slots| - 1]) && IsPlain(slots[|slots| - 1])
            && (forall i :: 0 <= i < |slots| ==> !IsEnd(slots[i]))
            && EntryOf(t, slots[|slots| - 1], name) == NewEntry(name, attr, x, stamp)
  {
    hide ShortEntry, EntryOf, LongSlots, ExactShort, CaseFlags, Pieces, IsPlain, IsLong, IsEnd, IsDeleted, IsText,
      CheckName, IsShortPart;
    NoZeros(name);
    FewPieces(name);
    if IsExactShort(name) {
      ShortEntryHolds(t, ExactShort(name), CaseFlags(name), attr, x, stamp, name);
      var s := ShortEntry(ExactShort(name), CaseFlags(name), attr, x, stamp);
      FirstByteIsShort(name, s);
      ShortIsPlain(s);
    } else {
      ShortEntryHolds(t, alias, 0, attr, x, stamp, name);
      var s := ShortEntry(alias, 0, attr, x, stamp);
      assert s[0] == s[..11][0];
      ShortIsPlain(s);
      PiecesArePieces(name, Checksum(alias));
      assert NewSlots(name, alias, attr, x, stamp)[..Pieces(name)] == LongSlots(name, Checksum(alias));
    }
  }

  lemma ShortIsPlain(s: Slot)
    requires s[0] != 0x00 && s[0] != 0xE5 && (s[11] == ATTR_DIRECTORY || s[11] == ATTR_ARCHIVE)
    ensures IsPlain(s) && !IsEnd(s)
  {
  }

  lemma FewPieces(name: Name)
    requires |name| <= MAX_NAME
    ensures Pieces(name) < 0x20 && (name != [] ==> 1 <= Pieces(name))
  {
  }

  /** The name of a new entry reads back: a long name if it does not hold the padding unit, an 8.3
      name if no complete orphan of a long name with its checksum comes right before it. */
  predicate ReadsBack(name: Name, before: Collector) {
    && (!IsExactShort(name) ==> 0xFFFF !in name)
    && (IsExactShort(name) ==>
        TakeName(before, ExactShort(name)).None? || TakeName(before, ExactShort(name)) == Some(name))
  }

  /** Where the slots of an entry for `name` start. */
  function EntryStart(name: Name, before: Collector, at: nat): nat {
    if IsExactShort(name) && TakeName(before, ExactShort(name)).Some? then before.start else at
  }

  /** A new entry's slots read back as exactly that entry. */
  lemma NewEntryReads(t: FatType, slots: seq<Slot>, at: nat, name: Name, alias: seq<byte>, attr: byte, x: Extent,
                      stamp: Stamp)
    requires CanAdd(t, name, alias, attr, x, stamp)
    requires var n := |NewSlots(name, alias, attr, x, stamp)|;
             at + n <= |slots| && slots[at..at + n] == NewSlots(name, alias, attr, x, stamp)
    requires !ScanTo(t, slots, at).ended && ReadsBack(name, ScanTo(t, slots, at).long)
    ensures var n := |NewSlots(name, alias, attr, x, stamp)|; var before := ScanTo(t, slots, at);
            ScanTo(t, slots, at + n) == Scan(
              before.entries + [Located(NewEntry(name, attr, x, stamp), EntryStart(name, before.long, at), at + n)],
                  NOTHING, false)
  {
    hide ScanTo, EntryOf, ShortEntry, AllPieces, IsText, LongSlots, Pieces, IsPlain, CaseFlags, ExactShort, NewEntry,
      CheckName, IsShortPart, Base, Extension, TakeName, Checksum;
    NoZeros(name);
    FewPieces(name);
    var added := NewSlots(name, alias, attr, x, stamp);
    var n := |added|;
    NewSlotsShape(t, name, alias, attr, x, stamp);
    assert slots[at + n - 1] == slots[at..at + n][n - 1] == added[n - 1];
    if IsExactShort(name) {
      ShortEntryHolds(t, ExactShort(name), CaseFlags(name), attr, x, stamp, name);
      ShortSlotReads(t, slots, at, name);
    } else {
      assert slots[at..at + (n - 1)] == slots[at..at + n][..n - 1] == LongSlots(name, Checksum(alias));
      ShortEntryHolds(t, alias, 0, attr, x, stamp, name);
      LongSlotsRead(t, slots, at, name, alias);
    }
  }

  lemma ShortSlotReads(t: FatType, slots: seq<Slot>, at: nat, name: Name)
    requires at < |slots| && IsExactShort(name) && CheckName(name)
    requires Spells(slots[at], ExactShort(name), CaseFlags(name)) && IsPlain(slots[at])
    requires !ScanTo(t, slots, at).ended && ReadsBack(name, ScanTo(t, slots, at).long)
    ensures var before := ScanTo(t, slots, at);
            ScanTo(t, slots, at + 1) == Scan(
              before.entries + [Located(EntryOf(t, slots[at], name), EntryStart(name, before.long, at), at + 1)],
                  NOTHING, false)
  {
    hide ScanTo, ScanSlot, EntryOf, ShortName, IsPlain, Found, CaseFlags, ExactShort, TakeName;
    var s, before := slots[at], ScanTo(t, slots, at);
    ScanNext(t, slots, at + 1);
    ExactShortReadsBack(name, s);
    PlainStep(t, before, s, at);
    FoundAs(t, before.long, s, at, name);
  }

  lemma LongSlotsRead(t: FatType, slots: seq<Slot>, at: nat, name: Name, alias: seq<byte>)
    requires CheckName(name) && IsText(name) && 0xFFFF !in name && Pieces(name) < 0x20
    requires var p := at + Pieces(name);
             && p < |slots| && slots[at..p] == LongSlots(name, Checksum(alias)) && slots[p][..11] == alias
                && IsPlain(slots[p])
    requires !ScanTo(t, slots, at).ended
    ensures var p := at + Pieces(name);
            ScanTo(t, slots, p + 1) == Scan(
              ScanTo(t, slots, at).entries + [Located(EntryOf(t, slots[p], name), at, p + 1)], NOTHING, false)
  {
    hide ScanTo, ScanSlot, EntryOf, ShortName, IsPlain, Found, LongSlots, Pieces, AllPieces, IsText, Collect, TakeName;
    var before, p := ScanTo(t, slots, at), at + Pieces(name);
    var pieces := LongSlots(name, Checksum(alias));
    NoZeros(name);
    FewPieces(name);
    PiecesArePieces(name, Checksum(alias));
    assert pieces == pieces[..Pieces(name)];
    ScanPieces(t, slots, at, pieces, Pieces(name));
    LongNameReadsBack(before.long, name, alias, at);
    ScanNext(t, slots, p + 1);
    PlainStep(t, ScanTo(t, slots, p), slots[p], p);
    FoundAs(t, ScanTo(t, slots, p).long, slots[p], p, name);
  }

  /** The pieces of a long name left without their 8.3 slot (as a power cut can leave them) take over
      an 8.3 entry written after them, if the checksums agree: it reads back under their name. */
  lemma OrphanTakesOver(t: FatType, orphan: Name, name: Name, s: Slot)
    requires CheckName(orphan) && IsText(orphan) && 0xFFFF !in orphan && Pieces(orphan) < 0x20
    requires CheckName(name) && IsExactShort(name) && name != orphan
    requires Spells(s, ExactShort(name), CaseFlags(name)) && IsPlain(s)
    ensures var slots := LongSlots(orphan, Checksum(ExactShort(name))) + [s];
            Entries(t, slots) == [Located(EntryOf(t, s, orphan), 0, |slots|)]
    ensures !ReadsBack(name, Collect(NOTHING, LongSlots(orphan, Checksum(ExactShort(name))), 0, Pieces(orphan)))
  {
    hide EntryOf, ExactShort, LongSlots, IsText, Collect, IsPlain, TakeName, CheckName, IsExactShort, CaseFlags,
      Checksum, Pieces, Entries, ReadsBack;
    OrphanNames(t, orphan, s, ExactShort(name));
    OrphanRenames(orphan, name);
  }

  lemma OrphanNames(t: FatType, orphan: Name, s: Slot, short: seq<byte>)
    requires CheckName(orphan) && IsText(orphan) && 0xFFFF !in orphan && Pieces(orphan) < 0x20 && s[..11] == short
             && IsPlain(s)
    ensures var slots := LongSlots(orphan, Checksum(short)) + [s];
            Entries(t, slots) == [Located(EntryOf(t, s, orphan), 0, |slots|)]
  {
    hide EntryOf, LongSlots, IsText, IsPlain, CheckName, Checksum, Pieces, ScanSlot;
    var pieces := LongSlots(orphan, Checksum(short));
    var slots := pieces + [s];
    assert slots[0..0 + Pieces(orphan)] == pieces;
    LongSlotsRead(t, slots, 0, orphan, short);
  }

  lemma OrphanRenames(orphan: Name, name: Name)
    requires CheckName(orphan) && IsText(orphan) && 0xFFFF !in orphan && Pieces(orphan) < 0x20 && IsExactShort(name)
             && name != orphan
    ensures !ReadsBack(name, Collect(NOTHING, LongSlots(orphan, Checksum(ExactShort(name))), 0, Pieces(orphan)))
  {
    hide ExactShort, LongSlots, IsText, Collect, TakeName, CheckName, IsExactShort, Checksum, Pieces;
    NoZeros(orphan);
    FewPieces(orphan);
    LongNameReadsBack(NOTHING, orphan, ExactShort(name), 0);
  }

  lemma NoZeros(name: Name)
    requires CheckName(name)
    ensures 0 !in name && name != [] && name != DOT && name != DOT_DOT && |name| <= MAX_NAME
  {
  }

  /** What a plain slot is found as. */
  lemma FoundAs(t: FatType, long: Collector, s: Slot, index: nat, name: Name)
    requires IsPlain(s) && name != DOT && name != DOT_DOT
    requires TakeName(long, s[..11]) == Some(name) || (TakeName(long, s[..11]).None? && ShortName(s) == name)
    ensures Found(t, long, s, index)
            == [Located(EntryOf(t, s, name), if TakeName(long, s[..11]).Some? then long.start else index, index + 1)]
  {
  }
}
