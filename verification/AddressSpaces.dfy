/**
 * A program's memory: its page tables and the frames they map, over the RAM and the frame
 * allocator that all programs share.
 */
module AddressSpaces {
  import opened Bytes
  import opened PageFrames
  import opened PageTables

  datatype MapError = NotAligned | OutsideWindow | AlreadyMapped | OutOfMemory

  /** RAM, and which of its frames are handed out. */
  class Memory {
    const source: Frames
    var ram: Ram

    ghost predicate Valid()
      reads this, source
    {
      && source.Valid() && source.base + source.count * PAGE_SIZE <= PHYSICAL
      && forall f :: source.IsFrame(f) ==> f in ram
    }

    ghost function Taken(): iset<nat>
      reads this, source
      requires Valid()
    {
      iset f: nat | source.IsTaken(f)
    }

    constructor (source: Frames, ram: Ram)
      requires source.Valid() && source.base + source.count * PAGE_SIZE <= PHYSICAL
               && forall f :: source.IsFrame(f) ==> f in ram
      ensures Valid() && this.source == source && this.ram == ram
    {
      this.source, this.ram := source, ram;
    }

    method ZeroedFrame() returns (frame: Option<nat>)
      requires Valid()
      modifies this`ram, source
      ensures Valid() && (frame.None? <==> old(source.free) == 0)
      ensures frame.None? ==> unchanged(this) && unchanged(source)
      ensures frame.Some? ==>
                && IsAddress(frame.value) && frame.value !in old(Taken()) && Taken() == old(Taken()) + iset{frame.value}
                && ram == old(ram)[frame.value := Zeros(PAGE_SIZE)] && source.free == old(source.free) - 1
    {
      hide Frame, Frames.IsFrame, Frames.IsTaken, IsAddress;
      frame := source.Allocate();
      if frame.Some? {
        IsOne(frame.value);
        ram := ram[frame.value := Zeros(PAGE_SIZE)];
      }
    }

    lemma IsOne(frame: nat)
      requires source.Valid() && source.base + source.count * PAGE_SIZE <= PHYSICAL && source.IsFrame(frame)
      ensures IsAddress(frame)
    {
    }

    method Put(frame: nat, page: Page)
      requires Valid() && frame in ram
      modifies this`ram
      ensures Valid() && ram == old(ram)[frame := page] && Taken() == old(Taken())
    {
      ram := ram[frame := page];
    }

    /** Gives back a frame. Anything but a frame that is handed out would be a panic. */
    method Free(frame: nat)
      requires Valid() && frame in Taken()
      modifies source
      ensures Valid() && Taken() == old(Taken()) - iset{frame} && source.free == old(source.free) + 1
    {
      hide Frame;
      assert source.IsFrame(frame);
      var error := source.Free(frame);
      assert error.None?;
    }

    method FreeValues(m: map<nat, nat>)
      requires Valid() && Injective(m) && forall k :: k in m ==> m[k] in Taken()
      modifies source
      ensures Valid() && source.free == old(source.free) + |m|
      ensures forall f: nat :: f in Taken() <==> f in old(Taken()) && f !in m.Values
    {
      hide Valid, Taken;
      var keys := m.Keys;
      while keys != {}
        invariant keys <= m.Keys && Valid() && source.free == old(source.free) + |m| - |keys|
        invariant forall f: nat :: f in Taken() <==> f in old(Taken()) && forall k :: k in m && k !in keys ==> m[k] != f
        decreases keys
      {
        var key :| key in keys;
        Free(m[key]);
        keys := keys - {key};
      }
    }
  }

  ghost predicate Injective(m: map<nat, nat>) { forall a, b :: a in m && b in m && m[a] == m[b] ==> a == b }

  /** From `s` to `s'`, frames taken were free, and RAM changed only in the space's own frames. */
  ghost predicate Beside(ram: Ram, taken: iset<nat>, s: Space, ram': Ram, taken': iset<nat>, s': Space) {
    && (forall f: nat :: f in taken' <==> f in taken || Owns(s', f))
    && (forall f: nat :: Owns(s', f) ==> Owns(s, f) || f !in taken)
    && (forall f: nat :: Owns(s, f) ==> Owns(s', f))
    && (forall f: nat :: f in ram && !Owns(s', f) ==> f in ram' && ram'[f] == ram[f])
  }

  lemma BesideTwice(ram: Ram, taken: iset<nat>, s: Space, ram': Ram, taken': iset<nat>, s': Space, ram'': Ram,
                    taken'': iset<nat>, s'': Space)
    requires Beside(ram, taken, s, ram', taken', s') && Beside(ram', taken', s', ram'', taken'', s'')
    ensures Beside(ram, taken, s, ram'', taken'', s'')
  {
  }

  lemma BesideOneMore(ram: Ram, taken: iset<nat>, s: Space, ram': Ram, s': Space, frame: nat, hook: nat)
    requires (forall f: nat :: Owns(s, f) ==> f in taken) && frame !in taken && OneMoreOwned(s, s', frame)
             && Owns(s, hook)
    requires forall f :: f in ram && f != frame && f != hook ==> f in ram' && ram'[f] == ram[f]
    ensures Beside(ram, taken, s, ram', taken + iset{frame}, s')
  {
  }

  lemma BesideNothing(ram: Ram, taken: iset<nat>, s: Space)
    requires forall f: nat :: Owns(s, f) ==> f in taken
    ensures Beside(ram, taken, s, ram, taken, s)
  {
  }

  /** What one address space does leaves every other as it was, with frames of its own. */
  lemma SpacesAreApart(ram: Ram, taken: iset<nat>, s: Space, ram': Ram, taken': iset<nat>, s': Space, other: Space,
                       kernel: Page)
    requires Beside(ram, taken, s, ram', taken', s') && IsSpace(ram, other, kernel)
    requires forall f: nat :: Owns(other, f) ==> f in taken && f in ram && !Owns(s, f)
    ensures IsSpace(ram', other, kernel)
    ensures forall f: nat :: Owns(other, f) ==> f in taken' && f in ram' && !Owns(s', f)
    ensures forall va :: va in other.frames ==> other.frames[va] in ram && other.frames[va] in ram'
    ensures View(ram', other.frames) == View(ram, other.frames)
  {
    hide Owns;
    OthersAreHarmless(ram, ram', other, kernel);
  }

  class AddressSpace {
    const memory: Memory
    ghost const kernel: Page
    var root: nat
    var level2: nat
    /** By level 2 index. */
    var level3: map<nat, nat>
    /** By virtual address. */
    var frames: map<nat, nat>
    ghost var rights: map<nat, Access>

    ghost function Now(): Space
      reads this
    {
      Space(root, level2, level3, frames, rights)
    }

    ghost predicate Valid()
      reads this, memory, memory.source
    {
      && memory.Valid() && IsSpace(memory.ram, Now(), kernel)
      && forall f: nat :: Owns(Now(), f) ==> f in memory.Taken()
    }

    /** The program's pages, by virtual address. */
    ghost function Contents(): (view: map<nat, Page>)
      reads this, memory, memory.source
      requires Valid()
      ensures view.Keys == rights.Keys
    {
      ViewIs(memory.ram, Now());
      SameKeys(memory.ram, Now(), kernel);
      View(memory.ram, frames)
    }

    constructor (memory: Memory, root: nat, level2: nat, ghost kernel: Page)
      requires memory.Valid() && IsSpace(memory.ram, Space(root, level2, map[], map[], map[]), kernel)
      requires root in memory.Taken() && level2 in memory.Taken()
      ensures Valid() && this.memory == memory && this.kernel == kernel
              && Now() == Space(root, level2, map[], map[], map[])
    {
      this.memory, this.kernel, this.root, this.level2 := memory, kernel, root, level2;
      level3, frames, rights := map[], map[], map[];
    }

    /** An address space with the kernel's entries, and nothing mapped in the user window. */
    static method New(memory: Memory, kernel: Page) returns (space: AddressSpace?)
      requires memory.Valid()
      modifies memory`ram, memory.source
      ensures memory.Valid() && (space == null <==> old(memory.source.free) < 2)
      ensures space != null ==> memory.source.free == old(memory.source.free) - 2
      ensures space == null ==> memory.Taken() == old(memory.Taken())
      ensures space != null ==>
                && fresh(space) && space.memory == memory && space.Valid() && space.kernel == kernel
                   && space.Contents() == map[]
                && (forall f: nat :: f in memory.Taken() <==> f in old(memory.Taken()) || Owns(space.Now(), f))
                && (forall f: nat :: Owns(space.Now(), f) ==> f !in old(memory.Taken()))
      ensures forall f :: f in old(memory.Taken()) && f in old(memory.ram) ==>
                f in memory.ram && memory.ram[f] == old(memory.ram[f])
    {
      hide IsAddress, Memory.Valid, Memory.Taken, PutEntry, IsSpace, Owns;
      var root := memory.ZeroedFrame();
      if root.None? {
        return null;
      }
      var level2 := memory.ZeroedFrame();
      if level2.None? {
        memory.Free(root.value);
        return null;
      }
      TableFits(level2.value);
      memory.Put(root.value, PutEntry(kernel, 2, level2.value + TABLE));
      NewOwns(root.value, level2.value);
      NewSpace(memory.ram, root.value, level2.value, kernel);
      space := new AddressSpace(memory, root.value, level2.value, kernel);
    }
  
    /** The level 3 table for `va`, made if there is none. */
    method TableFor(va: nat) returns (table: Option<nat>)
      requires Valid() && InWindow(va)
      modifies this`level3, memory`ram, memory.source
      ensures Valid() && Contents() == old(Contents())
      ensures table.None? <==> Level2Index(va) !in old(level3) && old(memory.source.free) == 0
      ensures table.None? ==> level3 == old(level3) && memory.source.free == 0
      ensures table.Some? ==>
                && Level2Index(va) in level3 && table.value == level3[Level2Index(va)]
                && memory.source.free == old(memory.source.free) - (if Level2Index(va) in old(level3) then 0 else 1)
      ensures Beside(old(memory.ram), old(memory.Taken()), old(Now()), memory.ram, memory.Taken(), Now())
    {
      hide IsAddress, Memory.Valid, Memory.Taken, PutEntry, IsSpace, Owns, Beside, Level2Index, View, OneMoreOwned, Has,
        FrameOf;
      var i := Level2Index(va);
      if i in level3 {
        BesideNothing(memory.ram, memory.Taken(), Now());
        return Some(level3[i]);
      }
      table := memory.ZeroedFrame();
      if table.None? {
        BesideNothing(memory.ram, memory.Taken(), Now());
        return;
      }
      IndexBounds(va);
      TableFits(table.value);
      ghost var ram, s := old(memory.ram), Now();
      AddTable(ram, s, kernel, i, table.value);
      OwnsTables(s);
      memory.Put(level2, PutEntry(memory.ram[level2], i, table.value + TABLE));
      level3 := level3[i := table.value];
      BesideOneMore(ram, old(memory.Taken()), s, memory.ram, Now(), table.value, level2);
      OwnedStay(s, Now(), table.value, old(memory.Taken()));
    }
  
    /** Maps a zeroed page through its level 3 table. */
    method MapIn(table: nat, va: nat, access: Access) returns (mapped: bool)
      requires Valid() && InWindow(va) && va % PAGE_SIZE == 0 && va !in frames && Level2Index(va) in level3
               && table == level3[Level2Index(va)]
      modifies this`frames, this`rights, memory`ram, memory.source
      ensures Valid() && (mapped <==> old(memory.source.free) > 0)
      ensures mapped ==> rights == old(rights)[va := access] && Contents() == old(Contents())[va := Zeros(PAGE_SIZE)]
      ensures mapped ==> memory.source.free == old(memory.source.free) - 1
      ensures !mapped ==> rights == old(rights) && Contents() == old(Contents()) && memory.source.free == 0
      ensures Beside(old(memory.ram), old(memory.Taken()), old(Now()), memory.ram, memory.Taken(), Now())
    {
      hide IsAddress, Memory.Valid, Memory.Taken, PutEntry, Owns, Beside, Level2Index, Level3Index, View, OneMoreOwned,
        IsSpace, Bits;
      ghost var s := Now();
      var frame := memory.ZeroedFrame();
      if frame.None? {
        BesideNothing(memory.ram, memory.Taken(), Now());
        return false;
      }
      IndexBounds(va);
      BitsFit(frame.value, access);
      AddPage(old(memory.ram), s, kernel, va, frame.value, access);
      OwnsTables(s);
      memory.Put(table, PutEntry(memory.ram[table], Level3Index(va), frame.value + Bits(access)));
      frames := frames[va := frame.value];
      rights := rights[va := access];
      BesideOneMore(old(memory.ram), old(memory.Taken()), s, memory.ram, Now(), frame.value, table);
      OwnedStay(s, Now(), frame.value, old(memory.Taken()));
      return true;
    }

    /** Maps a zeroed page at `va`. */
    method Map(va: nat, access: Access) returns (error: Option<MapError>)
      requires Valid()
      modifies this`level3, this`frames, this`rights, memory`ram, memory.source
      ensures Valid()
      ensures error == if Refusal(old(rights), va).Some? then Refusal(old(rights), va)
                       else if old(memory.source.free) < Needed(old(level3), va) then Some(OutOfMemory) else None
      ensures error.None? ==>
              rights == old(rights)[va := access] && Contents() == old(Contents())[va := Zeros(PAGE_SIZE)]
      ensures error.None? ==> memory.source.free == old(memory.source.free) - Needed(old(level3), va)
      ensures error.Some? ==> rights == old(rights) && Contents() == old(Contents())
      ensures error == Some(OutOfMemory) ==> memory.source.free == 0
      ensures Beside(old(memory.ram), old(memory.Taken()), old(Now()), memory.ram, memory.Taken(), Now())
    {
      hide Memory.Valid, Memory.Taken, Owns, Beside, Level2Index, View, IsSpace;
      BesideNothing(memory.ram, memory.Taken(), Now());
      SameKeys(memory.ram, Now(), kernel);
      if va % PAGE_SIZE != 0 {
        return Some(NotAligned);
      }
      if !InWindow(va) {
        return Some(OutsideWindow);
      }
      if va in frames {
        return Some(AlreadyMapped);
      }
      var table := TableFor(va);
      if table.None? {
        return Some(OutOfMemory);
      }
      ghost var ram, taken, s := memory.ram, memory.Taken(), Now();
      var mapped := MapIn(table.value, va, access);
      BesideTwice(old(memory.ram), old(memory.Taken()), old(Now()), ram, taken, s, memory.ram, memory.Taken(), Now());
      return if mapped then None else Some(OutOfMemory);
    }
  
    /** Maps zeroed pages over `start..start + len`, up to the first that cannot be. */
    method MapRange(start: nat, len: nat, access: Access) returns (error: Option<MapError>, ghost mapped: nat)
      requires Valid() && start < WORD && len < WORD
      modifies this`level3, this`frames, this`rights, memory`ram, memory.source
      ensures Valid() && mapped <= PagesIn(len)
      ensures Spread(old(rights), old(Contents()), rights, Contents(), start, mapped, access)
      ensures error.None? ==> mapped == PagesIn(len)
      ensures error.Some? && error.value != OutOfMemory ==>
                if start + len < WORD then
                    mapped < PagesIn(len) && error == Refusal(old(rights), start + mapped * PAGE_SIZE)
                else mapped == 0 && error == Some(OutsideWindow)
      ensures error == Some(OutOfMemory) ==> memory.source.free == 0 && old(memory.source.free) < 2 * PagesIn(len)
      ensures error.None? ==> memory.source.free + 2 * PagesIn(len) >= old(memory.source.free)
      ensures Beside(old(memory.ram), old(memory.Taken()), old(Now()), memory.ram, memory.Taken(), Now())
    {
      hide Memory.Valid, Memory.Taken, Owns, Beside, View, IsSpace, Spread, Refusal, Level2Index;
      mapped := 0;
      BesideNothing(memory.ram, memory.Taken(), Now());
      SpreadNone(rights, Contents(), start, access);
      if start + len >= WORD {
        return Some(OutsideWindow), 0;
      }
      var va := start;
      while va < start + len
        invariant Valid() && va == start + mapped * PAGE_SIZE && mapped <= PagesIn(len)
        invariant va < start + len <==> mapped < PagesIn(len)
        invariant memory.source.free + 2 * mapped >= old(memory.source.free)
        invariant Spread(old(rights), old(Contents()), rights, Contents(), start, mapped, access)
        invariant Beside(old(memory.ram), old(memory.Taken()), old(Now()), memory.ram, memory.Taken(), Now())
      {
        ghost var ram, taken, s, was := memory.ram, memory.Taken(), Now(), Contents();
        error := Map(va, access);
        BesideTwice(old(memory.ram), old(memory.Taken()), old(Now()), ram, taken, s, memory.ram, memory.Taken(), Now());
        SpreadRefusal(old(rights), old(Contents()), s.rights, was, start, mapped, access);
        if error.Some? {
          return;
        }
        SpreadMore(old(rights), old(Contents()), s.rights, was, start, mapped, access);
        mapped := mapped + 1;
        va := va + PAGE_SIZE;
        PagesLeft(len, mapped);
      }
      error := None;
    }
  
    /** Where `va` is in physical memory, and how the program may use it. */
    function Translate(va: nat): Option<(nat, Access)>
      reads this, memory
      requires root in memory.ram
    {
      Walk(memory.ram, root, va)
    }

    lemma Translates(va: nat)
      requires Valid()
      ensures root in memory.ram
      ensures Translate(va)
              == if PageOf(va) in rights then Some((frames[PageOf(va)] + va % PAGE_SIZE, rights[PageOf(va)])) else None
    {
      hide Walk, IsSpace;
      SameKeys(memory.ram, Now(), kernel);
      WalkFindsRecorded(memory.ram, Now(), kernel, va);
    }

    /** The next piece of `va..va + len`, within a page, and where it is: or the address at fault. */
    method Piece(va: nat, len: nat, done: nat, writing: bool) returns (piece: nat, at: Option<nat>, fault: nat)
      requires Valid() && va < WORD && done < len && (done == 0 || va + done <= USER_END)
      ensures 0 < piece <= len - done && (va + done) % PAGE_SIZE + piece <= PAGE_SIZE
      ensures (va + done) % PAGE_SIZE + piece == PAGE_SIZE || done + piece == len
      ensures at.None? ==> fault == va + done && !Allowed(rights, va + done, writing)
      ensures at.Some? ==>
              Allowed(rights, va + done, writing) && PageOf(va + done) in frames
                && at.value == frames[PageOf(va + done)] + (va + done) % PAGE_SIZE
    {
      hide Walk, IsSpace, Memory.Valid;
      Translates(va + done);
      SameKeys(memory.ram, Now(), kernel);
      // Past the first piece the address is at most the end of the window, so the sum never overflows.
      var address := va + done;
      assert address < WORD;
      piece := if PAGE_SIZE - address % PAGE_SIZE < len - done then PAGE_SIZE - address % PAGE_SIZE else len - done;
      var found := Translate(address);
      if found.Some? && (!writing || found.value.1 == ReadWrite) {
        return piece, Some(found.value.0), 0;
      }
      return piece, None, address;
    }

    /**
     * Copies `bytes` into the program's memory at `va`: all of them, or those below the first
     * address that may not be accessed.
     */
    method Store(va: nat, bytes: seq<byte>, writing: bool) returns (fault: Option<nat>)
      requires Valid() && va < WORD
      modifies memory`ram
      ensures Valid() && memory.Taken() == old(memory.Taken())
      ensures IsFault(rights, va, |bytes|, writing, fault)
      ensures IsStored(old(Contents()), Contents(), va, bytes[..Below(va, |bytes|, fault)])
      ensures Beside(old(memory.ram), old(memory.Taken()), Now(), memory.ram, memory.Taken(), Now())
    {
      hide Memory.Valid, Memory.Taken, Owns, Beside, View, IsSpace, IsStored, PageOf;
      var done := 0;
      StoredNone(Contents(), va);
      BesideNothing(memory.ram, memory.Taken(), Now());
      while done < |bytes|
        invariant 0 <= done <= |bytes| && (done == 0 || va + done <= USER_END)
        invariant Valid() && memory.Taken() == old(memory.Taken())
        invariant forall a :: va <= a < va + done ==> Allowed(rights, a, writing)
        invariant IsStored(old(Contents()), Contents(), va, bytes[..done])
        invariant Beside(old(memory.ram), old(memory.Taken()), Now(), memory.ram, memory.Taken(), Now())
      {
        var piece, at, address := Piece(va, |bytes|, done, writing);
        if at.None? {
          return Some(address);
        }
        ghost var ram, view := memory.ram, Contents();
        AllowedPiece(memory.ram, Now(), kernel, va + done, piece, writing);
        CopyTo(at.value, va + done, bytes[done..done + piece]);
        BesideTwice(old(memory.ram), old(memory.Taken()), Now(), ram, memory.Taken(), Now(), memory.ram, memory.Taken(),
                    Now());
        StoredMore(old(Contents()), view, Contents(), va, bytes[..done], bytes[done..done + piece]);
        assert bytes[..done] + bytes[done..done + piece] == bytes[..done + piece];
        done := done + piece;
      }
      assert bytes[..done] == bytes;
      return None;
    }

    /** Copies within a page. */
    method CopyTo(at: nat, ghost va: nat, bytes: seq<byte>)
      requires Valid() && PageOf(va) in frames && at == frames[PageOf(va)] + va % PAGE_SIZE
               && va % PAGE_SIZE + |bytes| <= PAGE_SIZE
      modifies memory`ram
      ensures Valid() && memory.Taken() == old(memory.Taken())
      ensures IsStored(old(Contents()), Contents(), va, bytes)
      ensures Beside(old(memory.ram), memory.Taken(), Now(), memory.ram, memory.Taken(), Now())
    {
      hide Memory.Valid, Memory.Taken, Owns, View, IsSpace, Patch, IsStored;
      PokeChangesPage(memory.ram, Now(), kernel, va, bytes);
      OwnsPages(Now());
      SameKeys(memory.ram, Now(), kernel);
      memory.Put(PageOf(at), Patch(memory.ram[PageOf(at)], at % PAGE_SIZE, bytes));
      StoredPiece(old(Contents()), va, bytes);
    }

    method Load(va: nat, bytes: seq<byte>) returns (fault: Option<nat>)
      requires Valid() && va < WORD
      modifies memory`ram
      ensures Valid() && memory.Taken() == old(memory.Taken())
      ensures IsFault(rights, va, |bytes|, false, fault)
      ensures IsStored(old(Contents()), Contents(), va, bytes[..Below(va, |bytes|, fault)])
      ensures Beside(old(memory.ram), old(memory.Taken()), Now(), memory.ram, memory.Taken(), Now())
    {
      fault := Store(va, bytes, false);
    }

    method WriteUser(va: nat, bytes: seq<byte>) returns (fault: Option<nat>)
      requires Valid() && va < WORD
      modifies memory`ram
      ensures Valid() && memory.Taken() == old(memory.Taken())
      ensures IsFault(rights, va, |bytes|, true, fault)
      ensures IsStored(old(Contents()), Contents(), va, bytes[..Below(va, |bytes|, fault)])
      ensures Beside(old(memory.ram), old(memory.Taken()), Now(), memory.ram, memory.Taken(), Now())
    {
      fault := Store(va, bytes, true);
    }

    /** Copies the program's memory at `va` into `buf`, up to the first address that is not mapped. */
    method ReadUser(va: nat, buf: array<byte>) returns (fault: Option<nat>)
      requires Valid() && va < WORD
      modifies buf
      ensures IsFault(rights, va, buf.Length, false, fault)
      ensures var n := Below(va, buf.Length, fault);
              n <= buf.Length && IsRead(Contents(), va, buf[..n]) && buf[n..] == old(buf[n..])
    {
      hide Memory.Valid, IsSpace, PageOf, View, IsRead, Patch, Allowed;
      var done := 0;
      ReadNone(Contents(), va);
      while done < buf.Length
        invariant 0 <= done <= buf.Length && (done == 0 || va + done <= USER_END)
        invariant forall a :: va <= a < va + done ==> Allowed(rights, a, false)
        invariant IsRead(Contents(), va, buf[..done]) && buf[done..] == old(buf[done..])
      {
        var piece, at, address := Piece(va, buf.Length, done, false);
        if at.None? {
          return Some(address);
        }
        AllowedPiece(memory.ram, Now(), kernel, va + done, piece, false);
        PieceBytes(memory.ram, Now(), kernel, va + done, piece);
        var offset := at.value % PAGE_SIZE;
        var bytes := memory.ram[PageOf(at.value)][offset..offset + piece];
        ReadMore(Contents(), va, buf[..done], bytes);
        CopyInto(buf, done, bytes);
        done := done + piece;
      }
      return None;
    }
  
    /** Gives back every frame of its pages and tables. */
    method Drop()
      requires Valid()
      modifies memory.source
      ensures memory.Valid() && forall f: nat :: f in memory.Taken() <==> f in old(memory.Taken()) && !Owns(Now(), f)
      ensures memory.source.free == old(memory.source.free) + |frames| + |level3| + 2
    {
      hide Memory.Valid, Memory.Taken, Owns, Distinct, Backed, TablesHold, Shaped;
      AllOwned(Now());
      Apart(Now());
      memory.FreeValues(frames);
      memory.Free(root);
      memory.Free(level2);
      memory.FreeValues(level3);
    }
  }

  lemma AllOwned(s: Space)
    ensures forall f: nat ::
              Owns(s, f) <==> f == s.root || f == s.level2 || f in s.level3.Values || f in s.frames.Values
  {
    OwnsTables(s);
    OwnsPages(s);
    forall f: nat | Owns(s, f) ensures f == s.root || f == s.level2 || f in s.level3.Values || f in s.frames.Values {
      var slot :| Has(s, slot) && FrameOf(s, slot) == f;
    }
  }

  lemma Apart(s: Space)
    requires Distinct(s)
    ensures Injective(s.frames) && Injective(s.level3) && s.root != s.level2
    ensures s.root !in s.frames.Values && s.level2 !in s.frames.Values && s.root !in s.level3.Values
            && s.level2 !in s.level3.Values
    ensures forall i :: i in s.level3 ==> s.level3[i] !in s.frames.Values
  {
    hide Distinct;
    NotSame(s, Root, Level2);
    forall va, vb | va in s.frames && vb in s.frames && va != vb ensures s.frames[va] != s.frames[vb] {
      NotSame(s, Mapped(va), Mapped(vb));
    }
    forall i, j | i in s.level3 && j in s.level3 && i != j ensures s.level3[i] != s.level3[j] {
      NotSame(s, Level3(i), Level3(j));
    }
    forall va | va in s.frames ensures s.frames[va] != s.root && s.frames[va] != s.level2 {
      NotSame(s, Mapped(va), Root);
      NotSame(s, Mapped(va), Level2);
    }
    forall i | i in s.level3 ensures s.level3[i] != s.root && s.level3[i] != s.level2 && s.level3[i] !in s.frames.Values
    {
      NotSame(s, Level3(i), Root);
      NotSame(s, Level3(i), Level2);
      forall va | va in s.frames ensures s.level3[i] != s.frames[va] {
        NotSame(s, Level3(i), Mapped(va));
      }
    }
  }

  lemma NotSame(s: Space, a: Slot, b: Slot)
    requires Distinct(s) && Has(s, a) && Has(s, b) && a != b
    ensures FrameOf(s, a) != FrameOf(s, b)
  {
  }

  method CopyInto(buf: array<byte>, at: nat, bytes: seq<byte>)
    requires at + |bytes| <= buf.Length
    modifies buf
    ensures buf[..at] == old(buf[..at]) && buf[at..at + |bytes|] == bytes
            && buf[at + |bytes|..] == old(buf[at + |bytes|..])
    ensures buf[..at + |bytes|] == old(buf[..at]) + bytes
  {
    var i := 0;
    while i < |bytes|
      invariant 0 <= i <= |bytes| && buf[..at] == old(buf[..at]) && buf[at..at + i] == bytes[..i]
                && buf[at + i..] == old(buf[at + i..])
    {
      buf[at + i] := bytes[i];
      i := i + 1;
    }
  }

  /** `bytes` are the program's memory at `va`. */
  ghost predicate IsRead(view: map<nat, Page>, va: nat, bytes: seq<byte>) {
    forall a: nat :: va <= a < va + |bytes| ==> PageOf(a) in view && bytes[a - va] == ByteAt(view, a)
  }

  lemma ReadNone(view: map<nat, Page>, va: nat)
    ensures IsRead(view, va, [])
  {
  }

  lemma ReadMore(view: map<nat, Page>, va: nat, bytes: seq<byte>, more: seq<byte>)
    requires IsRead(view, va, bytes) && IsRead(view, va + |bytes|, more)
    ensures IsRead(view, va, bytes + more)
  {
  }

  /** The byte of the program's memory at address `a`. */
  function ByteAt(view: map<nat, Page>, a: nat): byte
    requires PageOf(a) in view
  {
    view[PageOf(a)][a % PAGE_SIZE]
  }

  predicate Allowed(rights: map<nat, Access>, a: nat, writing: bool) {
    PageOf(a) in rights && (writing ==> rights[PageOf(a)] == ReadWrite)
  }

  /** `fault` is the lowest address of `va..va + len` that may not be accessed, if there is one. */
  ghost predicate IsFault(rights: map<nat, Access>, va: nat, len: nat, writing: bool, fault: Option<nat>) {
    && (fault.Some? ==> va <= fault.value < va + len && !Allowed(rights, fault.value, writing))
    && forall a :: va <= a < va + Below(va, len, fault) ==> Allowed(rights, a, writing)
  }

  /** How many bytes of `va..va + len` lie below a fault. */
  function Below(va: nat, len: nat, fault: Option<nat>): nat {
    match fault
    case None => len
    case Some(address) => if va <= address < va + len then address - va else 0
  }

  /** `bytes` are at `va` now, and every other byte is as before. */
  ghost predicate IsStored(view: map<nat, Page>, view': map<nat, Page>, va: nat, bytes: seq<byte>) {
    && view'.Keys == view.Keys
    && (forall a: nat :: va <= a < va + |bytes| ==> PageOf(a) in view)
    && forall a: nat :: PageOf(a) in view ==>
         ByteAt(view', a) == if va <= a < va + |bytes| then bytes[a - va] else ByteAt(view, a)
  }

  /** What was stored reads back, and what was elsewhere still reads as it did. */
  lemma ReadAfterWrite(view: map<nat, Page>, view': map<nat, Page>, va: nat, bytes: seq<byte>, other: nat,
                       was: seq<byte>)
    requires IsStored(view, view', va, bytes) && IsRead(view, other, was)
             && (other + |was| <= va || va + |bytes| <= other)
    ensures IsRead(view', va, bytes) && IsRead(view', other, was)
  {
  }

  lemma StoredNone(view: map<nat, Page>, va: nat)
    ensures IsStored(view, view, va, [])
  {
  }

  lemma StoredMore(view: map<nat, Page>, view': map<nat, Page>, view'': map<nat, Page>, va: nat, bytes: seq<byte>,
                   more: seq<byte>)
    requires IsStored(view, view', va, bytes) && IsStored(view', view'', va + |bytes|, more)
    ensures IsStored(view, view'', va, bytes + more)
  {
  }

  lemma StoredPiece(view: map<nat, Page>, va: nat, bytes: seq<byte>)
    requires PageOf(va) in view && va % PAGE_SIZE + |bytes| <= PAGE_SIZE
    ensures IsStored(view, view[PageOf(va) := Patch(view[PageOf(va)], va % PAGE_SIZE, bytes)], va, bytes)
  {
    hide PageOf, Patch;
    forall a: nat
      ensures va <= a < va + |bytes| ==> PageOf(a) == PageOf(va)
      ensures PageOf(a) == PageOf(va) ==> a % PAGE_SIZE - va % PAGE_SIZE == a - va
    {
      SamePage(va, a);
    }
  }

  lemma SamePage(va: nat, a: nat)
    ensures PageOf(a) == PageOf(va) ==> a % PAGE_SIZE - va % PAGE_SIZE == a - va
    ensures va <= a < va + PAGE_SIZE - va % PAGE_SIZE ==> PageOf(a) == PageOf(va)
  {
  }

  /** What may be done with the first byte of a piece may be done with all of it. */
  lemma AllowedPiece(ram: Ram, s: Space, kernel: Page, va: nat, piece: nat, writing: bool)
    requires IsSpace(ram, s, kernel) && Allowed(s.rights, va, writing) && va % PAGE_SIZE + piece <= PAGE_SIZE
    ensures va + piece <= USER_END && forall a :: va <= a < va + piece ==> Allowed(s.rights, a, writing)
  {
    hide PageOf, Distinct, Backed, TablesHold;
    assert Recorded(s, PageOf(va));
    assert PageOf(va) + PAGE_SIZE <= USER_END by {
      assert USER_END % PAGE_SIZE == 0;
    }
    forall a: nat | va <= a < va + piece ensures PageOf(a) == PageOf(va) {
      SamePage(va, a);
    }
  }

  lemma PieceBytes(ram: Ram, s: Space, kernel: Page, va: nat, piece: nat)
    requires IsSpace(ram, s, kernel) && PageOf(va) in s.frames && va % PAGE_SIZE + piece <= PAGE_SIZE
    ensures forall va :: va in s.frames ==> s.frames[va] in ram
    ensures var at := s.frames[PageOf(va)] + va % PAGE_SIZE;
            && PageOf(at) in ram && at % PAGE_SIZE == va % PAGE_SIZE
            && IsRead(View(ram, s.frames), va, ram[PageOf(at)][at % PAGE_SIZE..at % PAGE_SIZE + piece])
  {
    hide PageOf, Distinct, TablesHold, Shaped;
    ViewIs(ram, s);
    assert Has(s, Mapped(PageOf(va))) && FrameOf(s, Mapped(PageOf(va))) == s.frames[PageOf(va)];
    PageOffset(s.frames[PageOf(va)], va % PAGE_SIZE);
    forall a: nat | va <= a < va + piece ensures PageOf(a) == PageOf(va) && a % PAGE_SIZE == va % PAGE_SIZE + (a - va) {
      SamePage(va, a);
    }
  }

  lemma OwnsPages(s: Space)
    ensures forall va :: va in s.frames ==> Owns(s, s.frames[va])
  {
    forall va | va in s.frames ensures Owns(s, s.frames[va]) {
      assert Has(s, Mapped(va)) && FrameOf(s, Mapped(va)) == s.frames[va];
    }
  }

  function PagesIn(len: nat): nat { (len + PAGE_SIZE - 1) / PAGE_SIZE }

  lemma PagesLeft(len: nat, n: nat)
    ensures n * PAGE_SIZE < len <==> n < PagesIn(len)
  {
  }

  predicate InRun(start: nat, n: nat, va: nat) { start <= va < start + n * PAGE_SIZE && (va - start) % PAGE_SIZE == 0 }

  /** The `n` pages from `start` are new, zeroed and mapped with `access`, and the others are as before. */
  ghost predicate Spread(rights: map<nat, Access>, view: map<nat, Page>, rights': map<nat, Access>,
                         view': map<nat, Page>, start: nat, n: nat, access: Access)
  {
    && rights.Keys == view.Keys && rights'.Keys == view'.Keys
    && (forall va: nat :: va in rights' <==> va in rights || InRun(start, n, va))
    && (forall va: nat :: InRun(start, n, va) ==> va !in rights)
    && (forall va: nat :: va in rights' ==> rights'[va] == if InRun(start, n, va) then access else rights[va])
    && (forall va: nat :: va in rights' ==> view'[va] == if InRun(start, n, va) then Zeros(PAGE_SIZE) else view[va])
  }

  lemma SpreadNone(rights: map<nat, Access>, view: map<nat, Page>, start: nat, access: Access)
    requires rights.Keys == view.Keys
    ensures Spread(rights, view, rights, view, start, 0, access)
  {
  }

  lemma RunMore(start: nat, n: nat, va: nat)
    ensures InRun(start, n + 1, va) <==> InRun(start, n, va) || va == start + n * PAGE_SIZE
    ensures !InRun(start, n, start + n * PAGE_SIZE)
  {
  }

  lemma SpreadMore(rights: map<nat, Access>, view: map<nat, Page>, rights': map<nat, Access>, view': map<nat, Page>,
                   start: nat, n: nat, access: Access)
    requires Spread(rights, view, rights', view', start, n, access) && start + n * PAGE_SIZE !in rights'
    ensures var va := start + n * PAGE_SIZE;
            Spread(rights, view, rights'[va := access], view'[va := Zeros(PAGE_SIZE)], start, n + 1, access)
  {
    hide InRun;
    forall va: nat
      ensures InRun(start, n + 1, va) <==> InRun(start, n, va) || va == start + n * PAGE_SIZE
      ensures !InRun(start, n, start + n * PAGE_SIZE)
    {
      RunMore(start, n, va);
    }
  }

  lemma SpreadRefusal(rights: map<nat, Access>, view: map<nat, Page>, rights': map<nat, Access>, view': map<nat, Page>,
                      start: nat, n: nat, access: Access)
    requires Spread(rights, view, rights', view', start, n, access)
    ensures Refusal(rights', start + n * PAGE_SIZE) == Refusal(rights, start + n * PAGE_SIZE)
    ensures Refusal(rights', start + n * PAGE_SIZE).None? ==> start + n * PAGE_SIZE !in rights'
  {
  }

  lemma SameKeys(ram: Ram, s: Space, kernel: Page)
    requires IsSpace(ram, s, kernel)
    ensures s.frames.Keys == s.rights.Keys
  {
  }

  /** Why a page cannot be mapped at `va`, however much memory there is. */
  function Refusal(rights: map<nat, Access>, va: nat): (r: Option<MapError>)
    ensures r != Some(OutOfMemory)
  {
    if va % PAGE_SIZE != 0 then Some(NotAligned)
    else if !InWindow(va) then Some(OutsideWindow)
    else if va in rights then Some(AlreadyMapped)
    else None
  }

  /** The frames it takes to map a page at `va`. */
  function Needed(level3: map<nat, nat>, va: nat): nat { if Level2Index(va) in level3 then 1 else 2 }

  lemma OwnsTables(s: Space)
    ensures Owns(s, s.root) && Owns(s, s.level2) && forall i :: i in s.level3 ==> Owns(s, s.level3[i])
  {
    assert Has(s, Root) && FrameOf(s, Root) == s.root && Has(s, Level2) && FrameOf(s, Level2) == s.level2;
    forall i | i in s.level3 ensures Owns(s, s.level3[i]) {
      assert Has(s, Level3(i)) && FrameOf(s, Level3(i)) == s.level3[i];
    }
  }

  lemma OwnedStay(s: Space, s': Space, frame: nat, taken: iset<nat>)
    requires OneMoreOwned(s, s', frame) && forall f: nat :: Owns(s, f) ==> f in taken
    ensures forall f: nat :: Owns(s', f) ==> f in taken + iset{frame}
  {
  }

  lemma NewOwns(root: nat, level2: nat)
    ensures forall f: nat :: Owns(Space(root, level2, map[], map[], map[]), f) <==> f == root || f == level2
  {
    var s := Space(root, level2, map[], map[], map[]);
    assert Has(s, Root) && FrameOf(s, Root) == root && Has(s, Level2) && FrameOf(s, Level2) == level2;
  }

  lemma TableFits(frame: nat)
    requires IsAddress(frame)
    ensures frame + TABLE < WORD
  {
  }
}
