/**
 * The translation tables of a program's address space, as they lie in RAM: a level 1 table
 * shared with the kernel but for one entry, a level 2 table, and the level 3 tables and pages
 * mapped so far. The walk the MMU does over them is related to the pages recorded.
 */
module PageTables {
  import opened Bytes
  import opened PageFrames

  // Where things are in a program's address space.
  const USER_BASE: nat := 0x8000_0000
  const USER_END: nat := 0xC000_0000
  const STACK_TOP: nat := USER_END - PAGE_SIZE
  const STACK_SIZE: nat := 0x1_0000
  const PROGRAM_END: nat := STACK_TOP - STACK_SIZE - PAGE_SIZE

  const ENTRIES: nat := 512
  const VALID: nat := 1
  /** VALID and TABLE_OR_PAGE. */
  const TABLE: nat := 3
  const PHYSICAL: nat := 0x1_0000_0000_0000
  const WORD: nat := 0x1_0000_0000_0000_0000

  type Page = p: seq<byte> | |p| == 4096 witness seq(4096, i => 0)

  /** The frames of RAM, by physical address. */
  type Ram = map<nat, Page>

  datatype Access = ReadOnly | ReadWrite | ReadExecute

  /** The descriptor bits of a page: bits 53 and 54 forbid executing it, bit 7 writing it. */
  function Bits(access: Access): nat {
    match access
    case ReadOnly => 0x60_0000_0000_0FC3
    case ReadWrite => 0x60_0000_0000_0F43
    case ReadExecute => 0x20_0000_0000_0FC3
  }

  /** The physical address in a descriptor: its bits 12 to 47. */
  function Address(descriptor: nat): nat { descriptor % PHYSICAL / PAGE_SIZE * PAGE_SIZE }

  function FromDescriptor(descriptor: nat): Option<Access> {
    var bits := descriptor - Address(descriptor);
    if bits == Bits(ReadOnly) then Some(ReadOnly)
    else if bits == Bits(ReadWrite) then Some(ReadWrite)
    else if bits == Bits(ReadExecute) then Some(ReadExecute)
    else None
  }

  predicate IsAddress(frame: nat) { frame % PAGE_SIZE == 0 && frame < PHYSICAL }

  /** A descriptor gives back the frame and the access it was made of. */
  lemma DescriptorRoundTrip(frame: nat, access: Access)
    requires IsAddress(frame)
    ensures Address(frame + TABLE) == frame && (frame + TABLE) % 4 == TABLE
    ensures Address(frame + Bits(access)) == frame && (frame + Bits(access)) % 2 == VALID
    ensures FromDescriptor(frame + Bits(access)) == Some(access)
  {
    hide Address;
    AddressOf(frame, 0, TABLE);
    LowBits(frame, 0, TABLE);
    LowBits(frame, if access == ReadExecute then 0x20 else 0x60, if access == ReadWrite then 0xF43 else 0xFC3);
    match access
    case ReadOnly => AddressOf(frame, 0x60, 0xFC3);
    case ReadWrite => AddressOf(frame, 0x60, 0xF43);
    case ReadExecute => AddressOf(frame, 0x20, 0xFC3);
  }

  lemma LowBits(frame: nat, high: nat, low: nat)
    requires frame % PAGE_SIZE == 0 && low % 4 == 3
    ensures (frame + high * PHYSICAL + low) % 4 == 3 && (frame + high * PHYSICAL + low) % 2 == 1
  {
    var n, m := frame / PAGE_SIZE, low / 4;
    assert frame + high * PHYSICAL + low == 4 * (n * 1024 + high * 0x4000_0000_0000 + m) + 3;
  }

  lemma AddressOf(frame: nat, high: nat, low: nat)
    requires IsAddress(frame) && low < PAGE_SIZE
    ensures Address(frame + high * PHYSICAL + low) == frame
  {
    var n := frame / PAGE_SIZE;
    assert frame == n * PAGE_SIZE;
    var d := frame + high * PHYSICAL + low;
    assert frame + low < PHYSICAL;
    assert d % PHYSICAL == frame + low;
    assert (n * PAGE_SIZE + low) / PAGE_SIZE == n;
  }

  // Entries of a table, eight bytes each.

  function Entry(table: Page, i: nat): nat
    requires i < ENTRIES
  {
    U64(table, 8 * i)
  }

  function PutEntry(table: Page, i: nat, descriptor: nat): Page
    requires i < ENTRIES && descriptor < WORD
  {
    Patch(Patch(table, 8 * i, Le32(descriptor % 0x1_0000_0000)), 8 * i + 4, Le32(descriptor / 0x1_0000_0000))
  }

  lemma PutEntryAt(table: Page, i: nat, descriptor: nat, j: nat)
    requires i < ENTRIES && j < ENTRIES && descriptor < WORD
    ensures Entry(PutEntry(table, i, descriptor), j) == if i == j then descriptor else Entry(table, j)
  {
    hide Patch, U32, Le32;
    var low, high := descriptor % 0x1_0000_0000, descriptor / 0x1_0000_0000;
    var half := Patch(table, 8 * i, Le32(low));
    PatchU32(table, 8 * i, low, 8 * j);
    PatchU32(table, 8 * i, low, 8 * j + 4);
    PatchU32(half, 8 * i + 4, high, 8 * j);
    PatchU32(half, 8 * i + 4, high, 8 * j + 4);
  }

  lemma EmptyTable(i: nat)
    requires i < ENTRIES
    ensures Entry(Zeros(PAGE_SIZE), i) == 0
  {
  }

  // Indexes into the tables.

  function Level1Index(va: nat): nat { va / 0x4000_0000 % ENTRIES }

  function Level2Index(va: nat): nat { va / 0x20_0000 % ENTRIES }

  function Level3Index(va: nat): nat { va / 0x1000 % ENTRIES }

  predicate InWindow(va: nat) { USER_BASE <= va < USER_END }

  function PageOf(va: nat): (p: nat)
    ensures p <= va < p + PAGE_SIZE && p + va % PAGE_SIZE == va && p % PAGE_SIZE == 0
    ensures InWindow(va) <==> InWindow(p)
  {
    va - va % PAGE_SIZE
  }

  /** The page that entry `j` of level 3 table `i` maps. */
  function PageAt(i: nat, j: nat): nat { USER_BASE + i * 0x20_0000 + j * 0x1000 }

  /** The indexes of an address in the window name its page, and no other entry does. */
  lemma IndexesName(va: nat, i: nat, j: nat)
    requires InWindow(va) && i < ENTRIES && j < ENTRIES
    ensures Level1Index(va) == 2
    ensures PageAt(i, j) == PageOf(va) <==> i == Level2Index(va) && j == Level3Index(va)
  {
    var n := va / 0x1000;
    assert va / 0x20_0000 == n / 512 && va / 0x4000_0000 == n / 0x4_0000;
    var m := n - 0x8_0000;
    assert 0 <= m < 0x4_0000;
    assert Level2Index(va) == m / 512 && Level3Index(va) == m % 512;
    assert PageOf(va) == n * 0x1000;
    assert PageAt(i, j) == (0x8_0000 + i * 512 + j) * 0x1000;
  }

  // What an address space has recorded, and what its tables hold.

  datatype Space = Space(root: nat, level2: nat, level3: map<nat, nat>, frames: map<nat, nat>, rights: map<nat, Access>)

  /** What an address space uses a frame for. */
  datatype Slot = Root | Level2 | Level3(index: nat) | Mapped(va: nat)

  predicate Has(s: Space, slot: Slot) {
    match slot
    case Level3(i) => i in s.level3
    case Mapped(va) => va in s.frames
    case _ => true
  }

  function FrameOf(s: Space, slot: Slot): nat
    requires Has(s, slot)
  {
    match slot
    case Root => s.root
    case Level2 => s.level2
    case Level3(i) => s.level3[i]
    case Mapped(va) => s.frames[va]
  }

  /** The frame of a slot is one of `frame`s an address space owns. */
  ghost predicate Owns(s: Space, frame: nat) { exists slot :: Has(s, slot) && FrameOf(s, slot) == frame }

  ghost predicate OneMoreOwned(s: Space, s': Space, frame: nat) {
    forall f: nat :: Owns(s', f) <==> Owns(s, f) || f == frame
  }

  /** No frame is used twice. */
  ghost predicate Distinct(s: Space) {
    forall a, b :: Has(s, a) && Has(s, b) && FrameOf(s, a) == FrameOf(s, b) ==> a == b
  }

  ghost predicate Backed(ram: Ram, s: Space) {
    forall slot :: Has(s, slot) ==> FrameOf(s, slot) in ram && IsAddress(FrameOf(s, slot))
  }

  predicate Recorded(s: Space, va: nat)
    requires va in s.frames
  {
    InWindow(va) && va % PAGE_SIZE == 0 && Level2Index(va) in s.level3 && va in s.rights
  }

  ghost predicate Shaped(s: Space) {
    && (forall va :: va in s.frames ==> Recorded(s, va))
    && (forall i :: i in s.level3 ==> i < ENTRIES)
    && s.frames.Keys == s.rights.Keys
  }

  function Leaf(s: Space, va: nat): nat
    requires s.frames.Keys == s.rights.Keys
  {
    if va in s.frames then s.frames[va] + Bits(s.rights[va]) else 0
  }

  /** The level 1 table is the kernel's, but for the entry of the user window. */
  ghost predicate RootIs(table: Page, s: Space, kernel: Page) {
    forall i: nat :: i < ENTRIES ==> Entry(table, i) == if i == 2 then s.level2 + TABLE else Entry(kernel, i)
  }

  ghost predicate Level2Is(table: Page, s: Space) {
    forall i: nat :: i < ENTRIES ==> Entry(table, i) == if i in s.level3 then s.level3[i] + TABLE else 0
  }

  ghost predicate Level3Is(table: Page, s: Space, i: nat)
    requires s.frames.Keys == s.rights.Keys
  {
    forall j: nat :: j < ENTRIES ==> Entry(table, j) == Leaf(s, PageAt(i, j))
  }

  /** What the frame of a slot holds: pages hold anything. */
  ghost predicate Holds(frame: Page, s: Space, slot: Slot, kernel: Page)
    requires s.frames.Keys == s.rights.Keys
  {
    match slot
    case Root => RootIs(frame, s, kernel)
    case Level2 => Level2Is(frame, s)
    case Level3(i) => Level3Is(frame, s, i)
    case Mapped(_) => true
  }

  ghost predicate TablesHold(ram: Ram, s: Space, kernel: Page)
    requires Backed(ram, s) && Shaped(s)
  {
    forall slot :: Has(s, slot) ==> Holds(ram[FrameOf(s, slot)], s, slot, kernel)
  }

  ghost predicate IsSpace(ram: Ram, s: Space, kernel: Page) {
    Distinct(s) && Backed(ram, s) && Shaped(s) && TablesHold(ram, s, kernel)
  }

  /** The table a level 1 or 2 descriptor points to. */
  function Next(ram: Ram, descriptor: nat): Option<Page> {
    if descriptor % 4 == TABLE && Address(descriptor) in ram then Some(ram[Address(descriptor)]) else None
  }

  /** Where `va` is in physical memory and how the program may use it, walking the tables like the MMU does. */
  function Walk(ram: Ram, root: nat, va: nat): Option<(nat, Access)>
    requires root in ram
  {
    if !InWindow(va) then None else
    var level2 := Next(ram, Entry(ram[root], Level1Index(va)));
    if level2.None? then None else
    var level3 := Next(ram, Entry(level2.value, Level2Index(va)));
    if level3.None? then None else
    var descriptor := Entry(level3.value, Level3Index(va));
    if descriptor % 2 != VALID then None else
    var access := FromDescriptor(descriptor);
    if access.None? then None else Some((Address(descriptor) + va % PAGE_SIZE, access.value))
  }

  /** The walk finds exactly the pages recorded, for every address. */
  lemma WalkFindsRecorded(ram: Ram, s: Space, kernel: Page, va: nat)
    requires IsSpace(ram, s, kernel)
    ensures s.root in ram
    ensures Walk(ram, s.root, va)
            == if PageOf(va) in s.frames then Some((s.frames[PageOf(va)] + va % PAGE_SIZE, s.rights[PageOf(va)]))
              else None
  {
    hide Entry, Address, FromDescriptor, Bits, IsAddress, PageAt, Distinct, Level1Index, Level2Index, Level3Index;
    assert Has(s, Root) && Has(s, Level2);
    assert FrameOf(s, Root) in ram && FrameOf(s, Level2) in ram;
    assert PageOf(va) in s.frames ==> Recorded(s, PageOf(va));
    if InWindow(va) {
      var i, j := Level2Index(va), Level3Index(va);
      IndexBounds(va);
      IndexesName(va, i, j);
      IndexesName(PageOf(va), i, j);
      DescriptorRoundTrip(s.level2, ReadOnly);
      assert Entry(ram[s.root], 2) == s.level2 + TABLE;
      assert Entry(ram[s.level2], i) == if i in s.level3 then s.level3[i] + TABLE else 0;
      if i in s.level3 {
        assert Has(s, Level3(i));
        DescriptorRoundTrip(FrameOf(s, Level3(i)), ReadOnly);
        assert Entry(ram[s.level3[i]], j) == Leaf(s, PageAt(i, j));
        if PageOf(va) in s.frames {
          assert Has(s, Mapped(PageOf(va)));
          DescriptorRoundTrip(FrameOf(s, Mapped(PageOf(va))), s.rights[PageOf(va)]);
        }
      }
    }
  }

  lemma IndexBounds(va: nat)
    ensures Level1Index(va) < ENTRIES && Level2Index(va) < ENTRIES && Level3Index(va) < ENTRIES
  {
  }

  // The program's memory, page by page, and what changes it.

  function View(ram: Ram, frames: map<nat, nat>): map<nat, Page>
    requires forall va :: va in frames ==> frames[va] in ram
  {
    map va | va in frames :: ram[frames[va]]
  }

  lemma ViewIs(ram: Ram, s: Space)
    requires Backed(ram, s)
    ensures forall va :: va in s.frames ==> s.frames[va] in ram
    ensures View(ram, s.frames).Keys == s.frames.Keys
    ensures forall va :: va in s.frames ==> View(ram, s.frames)[va] == ram[s.frames[va]]
  {
    assert forall va :: va in s.frames ==> Has(s, Mapped(va)) && FrameOf(s, Mapped(va)) == s.frames[va];
  }

  /** Whatever happens to frames it does not own leaves an address space as it was. */
  lemma OthersAreHarmless(ram: Ram, ram': Ram, s: Space, kernel: Page)
    requires IsSpace(ram, s, kernel)
    requires forall f :: Owns(s, f) ==> f in ram' && (f in ram ==> ram'[f] == ram[f])
    ensures IsSpace(ram', s, kernel) && s.root in ram && s.root in ram'
    ensures forall va :: va in s.frames ==> s.frames[va] in ram && s.frames[va] in ram'
    ensures View(ram', s.frames) == View(ram, s.frames)
    ensures forall va: nat :: Walk(ram', s.root, va) == Walk(ram, s.root, va)
  {
    hide Holds, Shaped, Distinct, IsAddress, Walk, Owns;
    OwnsThose(s);
    assert Has(s, Root) && FrameOf(s, Root) == s.root;
    ViewIs(ram, s);
    ViewIs(ram', s);
    forall va | va in s.frames ensures ram'[s.frames[va]] == ram[s.frames[va]] {
      assert Has(s, Mapped(va)) && FrameOf(s, Mapped(va)) == s.frames[va];
    }
    forall va: nat ensures Walk(ram', s.root, va) == Walk(ram, s.root, va) {
      WalkFindsRecorded(ram, s, kernel, va);
      WalkFindsRecorded(ram', s, kernel, va);
    }
  }

  /** A new address space: the kernel's entries, and an empty user window. */
  lemma NewSpace(ram: Ram, root: nat, level2: nat, kernel: Page)
    requires root in ram && level2 in ram && root != level2 && IsAddress(root) && IsAddress(level2)
    requires ram[level2] == Zeros(PAGE_SIZE) && ram[root] == PutEntry(kernel, 2, level2 + TABLE)
    ensures IsSpace(ram, Space(root, level2, map[], map[], map[]), kernel)
  {
    hide Entry, PutEntry;
    var s := Space(root, level2, map[], map[], map[]);
    forall i: nat | i < ENTRIES
      ensures Entry(ram[root], i) == if i == 2 then level2 + TABLE else Entry(kernel, i)
      ensures Entry(ram[level2], i) == 0
    {
      PutEntryAt(kernel, 2, level2 + TABLE, i);
      EmptyTable(i);
    }
    assert RootIs(ram[root], s, kernel) && Level2Is(ram[level2], s);
  }

  lemma PageAtIs(i: nat, j: nat)
    requires i < ENTRIES && j < ENTRIES
    ensures InWindow(PageAt(i, j)) && PageOf(PageAt(i, j)) == PageAt(i, j)
    ensures Level2Index(PageAt(i, j)) == i && Level3Index(PageAt(i, j)) == j
  {
    assert PageAt(i, j) == (0x8_0000 + i * 512 + j) * 0x1000;
    IndexesName(PageAt(i, j), i, j);
  }

  lemma OwnsThose(s: Space)
    ensures forall slot :: Has(s, slot) ==> Owns(s, FrameOf(s, slot))
  {
  }

  /** A frame given to a slot that had none. */
  lemma OneMore(ram: Ram, s: Space, ram': Ram, s': Space, added: Slot, frame: nat)
    requires Distinct(s) && Backed(ram, s) && !Has(s, added) && IsAddress(frame) && !Owns(s, frame)
    requires Has(s', added) && FrameOf(s', added) == frame
    requires forall slot :: Has(s', slot) && slot != added <==> Has(s, slot)
    requires forall slot :: Has(s, slot) ==> FrameOf(s', slot) == FrameOf(s, slot)
    requires ram'.Keys == ram.Keys + {frame}
    ensures Distinct(s') && Backed(ram', s')
    ensures OneMoreOwned(s, s', frame)
  {
    hide IsAddress;
    OwnsThose(s);
    OwnsThose(s');
  }

  /** A frame taken for a level 3 table: RAM and the records once it is zeroed and hooked in. */
  function WithTable(ram: Ram, s: Space, i: nat, frame: nat): (Ram, Space)
    requires i < ENTRIES && IsAddress(frame) && s.level2 in ram && s.level2 != frame
  {
    (ram[frame := Zeros(PAGE_SIZE)][s.level2 := PutEntry(ram[s.level2], i, frame + TABLE)],
     s.(level3 := s.level3[i := frame]))
  }

  lemma AddTable(ram: Ram, s: Space, kernel: Page, i: nat, frame: nat)
    requires IsSpace(ram, s, kernel) && i < ENTRIES && i !in s.level3 && IsAddress(frame) && !Owns(s, frame)
    ensures s.level2 in ram && s.level2 != frame
    ensures var (ram', s') := WithTable(ram, s, i, frame); IsSpace(ram', s', kernel) && OneMoreOwned(s, s', frame)
    ensures forall va :: va in s.frames ==> s.frames[va] in ram && s.frames[va] in WithTable(ram, s, i, frame).0
    ensures View(WithTable(ram, s, i, frame).0, s.frames) == View(ram, s.frames)
  {
    hide PutEntry, IsAddress, Level2Index, Holds, Owns;
    OwnsThose(s);
    assert Has(s, Level2) && FrameOf(s, Level2) == s.level2;
    var (ram', s') := WithTable(ram, s, i, frame);
    OneMore(ram, s, ram', s', Level3(i), frame);
    forall slot | Has(s', slot) ensures Holds(ram'[FrameOf(s', slot)], s', slot, kernel) {
      if slot == Level3(i) {
        EmptyHolds(s, kernel, i, frame);
      } else {
        assert Has(s, slot) && FrameOf(s, slot) == FrameOf(s', slot) != frame;
        TableHolds(ram[FrameOf(s, slot)], s, kernel, i, frame, slot);
      }
    }
    forall va | va in s.frames ensures s.frames[va] in ram && s.frames[va] != s.level2 && s.frames[va] != frame {
      assert Has(s, Mapped(va)) && FrameOf(s, Mapped(va)) == s.frames[va];
    }
  }

  lemma EmptyHolds(s: Space, kernel: Page, i: nat, frame: nat)
    requires Shaped(s) && i < ENTRIES && i !in s.level3
    ensures Holds(Zeros(PAGE_SIZE), s.(level3 := s.level3[i := frame]), Level3(i), kernel)
  {
    hide Entry, PageAt, Level2Index, Level3Index;
    forall j: nat | j < ENTRIES ensures Entry(Zeros(PAGE_SIZE), j) == Leaf(s, PageAt(i, j)) {
      EmptyTable(j);
      PageAtIs(i, j);
      assert PageAt(i, j) in s.frames ==> Recorded(s, PageAt(i, j));
    }
  }

  lemma TableHolds(page: Page, s: Space, kernel: Page, i: nat, frame: nat, slot: Slot)
    requires s.frames.Keys == s.rights.Keys && i < ENTRIES && IsAddress(frame) && slot != Level3(i)
             && Holds(page, s, slot, kernel)
    ensures var page' := if slot == Level2 then PutEntry(page, i, frame + TABLE) else page;
            Holds(page', s.(level3 := s.level3[i := frame]), slot, kernel)
  {
    hide Entry, PutEntry;
    if slot == Level2 {
      forall j: nat | j < ENTRIES
        ensures Entry(PutEntry(page, i, frame + TABLE), j) == if i == j then frame + TABLE else Entry(page, j)
      {
        PutEntryAt(page, i, frame + TABLE, j);
      }
    }
  }

  /** A frame taken for a page: RAM and the records once it is zeroed and mapped. */
  function WithPage(ram: Ram, s: Space, va: nat, frame: nat, access: Access): (Ram, Space)
    requires Level2Index(va) in s.level3 && s.level3[Level2Index(va)] in ram && IsAddress(frame)
             && s.level3[Level2Index(va)] != frame
  {
    var table := s.level3[Level2Index(va)];
    (ram[frame := Zeros(PAGE_SIZE)][table := PutEntry(ram[table], Level3Index(va), frame + Bits(access))],
     s.(frames := s.frames[va := frame], rights := s.rights[va := access]))
  }

  lemma AddPage(ram: Ram, s: Space, kernel: Page, va: nat, frame: nat, access: Access)
    requires IsSpace(ram, s, kernel) && InWindow(va) && va % PAGE_SIZE == 0 && Level2Index(va) in s.level3
             && va !in s.frames
    requires IsAddress(frame) && !Owns(s, frame)
    ensures s.level3[Level2Index(va)] in ram && s.level3[Level2Index(va)] != frame
    ensures var (ram', s') := WithPage(ram, s, va, frame, access);
            IsSpace(ram', s', kernel) && OneMoreOwned(s, s', frame)
    ensures var (ram', s') := WithPage(ram, s, va, frame, access);
            && (forall va :: va in s.frames ==> s.frames[va] in ram)
               && (forall va :: va in s'.frames ==> s'.frames[va] in ram')
            && View(ram', s'.frames) == View(ram, s.frames)[va := Zeros(PAGE_SIZE)]
  {
    hide PutEntry, IsAddress, Level2Index, Level3Index, Holds, Owns, Bits;
    OwnsThose(s);
    var hook := Level3(Level2Index(va));
    assert Has(s, hook) && FrameOf(s, hook) == s.level3[Level2Index(va)];
    var (ram', s') := WithPage(ram, s, va, frame, access);
    OneMore(ram, s, ram', s', Mapped(va), frame);
    forall slot | Has(s', slot) ensures Holds(ram'[FrameOf(s', slot)], s', slot, kernel) {
      if slot == Mapped(va) {
        MappedHolds(ram'[frame], s', va, kernel);
      } else {
        assert Has(s, slot) && FrameOf(s, slot) == FrameOf(s', slot) != frame;
        PageHolds(ram[FrameOf(s, slot)], s, kernel, va, frame, access, slot);
      }
    }
    forall v | v in s.frames ensures s.frames[v] in ram && s.frames[v] != FrameOf(s, hook) && s.frames[v] != frame {
      assert Has(s, Mapped(v)) && FrameOf(s, Mapped(v)) == s.frames[v];
    }
  }

  lemma MappedHolds(page: Page, s: Space, va: nat, kernel: Page)
    requires s.frames.Keys == s.rights.Keys
    ensures Holds(page, s, Mapped(va), kernel)
  {
  }

  lemma PageHolds(page: Page, s: Space, kernel: Page, va: nat, frame: nat, access: Access, slot: Slot)
    requires Shaped(s) && InWindow(va) && va % PAGE_SIZE == 0 && IsAddress(frame)
    requires Has(s, slot) && Holds(page, s, slot, kernel)
    ensures var page' := if slot == Level3(Level2Index(va)) then PutEntry(page, Level3Index(va), frame + Bits(access))
            else page;
            Holds(page', s.(frames := s.frames[va := frame], rights := s.rights[va := access]), slot, kernel)
  {
    hide Entry, PutEntry, PageAt, Level2Index, Level3Index, Bits;
    if slot.Level3? {
      IndexBounds(va);
      BitsFit(frame, access);
      forall j: nat | j < ENTRIES
        ensures PageAt(slot.index, j) == va <==> slot.index == Level2Index(va) && j == Level3Index(va)
        ensures Entry(PutEntry(page, Level3Index(va), frame + Bits(access)), j)
                == if j == Level3Index(va) then frame + Bits(access) else Entry(page, j)
      {
        IndexesName(va, slot.index, j);
        PutEntryAt(page, Level3Index(va), frame + Bits(access), j);
      }
    }
  }

  lemma BitsFit(frame: nat, access: Access)
    requires IsAddress(frame)
    ensures frame + Bits(access) < WORD
  {
  }

  // Bytes written through to a page.

  /** `bytes` copied to physical address `at`, within one frame. */
  function Poke(ram: Ram, at: nat, bytes: seq<byte>): Ram
    requires PageOf(at) in ram && at % PAGE_SIZE + |bytes| <= PAGE_SIZE
  {
    ram[PageOf(at) := Patch(ram[PageOf(at)], at % PAGE_SIZE, bytes)]
  }

  /** Bytes copied to where the walk says an address is change that page of the program's memory, and no table. */
  lemma PokeChangesPage(ram: Ram, s: Space, kernel: Page, va: nat, bytes: seq<byte>)
    requires IsSpace(ram, s, kernel) && PageOf(va) in s.frames && va % PAGE_SIZE + |bytes| <= PAGE_SIZE
    ensures s.frames[PageOf(va)] in ram
    ensures var at := s.frames[PageOf(va)] + va % PAGE_SIZE;
            PageOf(at) == s.frames[PageOf(va)] && at % PAGE_SIZE == va % PAGE_SIZE
    ensures var ram' := Poke(ram, s.frames[PageOf(va)] + va % PAGE_SIZE, bytes);
            && IsSpace(ram', s, kernel)
            && (forall va :: va in s.frames ==> s.frames[va] in ram && s.frames[va] in ram')
            && View(ram', s.frames)
               == View(ram, s.frames)[PageOf(va) := Patch(View(ram, s.frames)[PageOf(va)], va % PAGE_SIZE, bytes)]
  {
    hide Entry, IsAddress, Level2Index, Holds, Patch;
    var slot := Mapped(PageOf(va));
    assert Has(s, slot) && FrameOf(s, slot) == s.frames[PageOf(va)];
    PageOffset(s.frames[PageOf(va)], va % PAGE_SIZE);
    var ram' := Poke(ram, s.frames[PageOf(va)] + va % PAGE_SIZE, bytes);
    forall other | Has(s, other) && other != slot ensures ram'[FrameOf(s, other)] == ram[FrameOf(s, other)] {
    }
    MappedHolds(ram'[FrameOf(s, slot)], s, PageOf(va), kernel);
    ViewIs(ram, s);
    ViewIs(ram', s);
    forall v | v in s.frames && v != PageOf(va) ensures ram'[s.frames[v]] == ram[s.frames[v]] {
      assert Has(s, Mapped(v)) && FrameOf(s, Mapped(v)) == s.frames[v];
    }
  }

  lemma PageOffset(frame: nat, offset: nat)
    requires IsAddress(frame) && offset < PAGE_SIZE
    ensures PageOf(frame + offset) == frame && (frame + offset) % PAGE_SIZE == offset
  {
    assert frame == frame / PAGE_SIZE * PAGE_SIZE;
  }
}
