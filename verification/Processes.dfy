/** A program's memory from its start: its segments, its stack and arguments, and its heap as it grows. */
module Processes {
  import opened Bytes
  import opened PageFrames
  import opened PageTables
  import opened AddressSpaces
  import opened Elf

  const MAX_ARGS: nat := 1024
  const STACK_BASE: nat := STACK_TOP - STACK_SIZE

  datatype LoadError = MapFailed(error: MapError) | AccessFault(address: nat)

  datatype SpawnError = ArgsTooLong | NoMemory

  /** Every byte of the segment is in memory: its data, then zeros, with the access it asks for. */
  ghost predicate IsLoaded(rights: map<nat, Access>, view: map<nat, Page>, segment: Segment) {
    forall a: nat :: segment.address <= a < segment.End() ==>
                       && PageOf(a) in rights && PageOf(a) in view && rights[PageOf(a)] == segment.access
                       && ByteAt(view, a)
                          == if a - segment.address < |segment.data| then segment.data[a - segment.address] else 0
  }

  /** The segment is loaded, on pages that were not mapped, and the pages that were are as before. */
  ghost predicate Adds(rights: map<nat, Access>, view: map<nat, Page>, rights': map<nat, Access>, view': map<nat, Page>,
                       segment: Segment)
  {
    && (forall va: nat :: va in rights' <==> va in rights || (va % PAGE_SIZE == 0 && Touches(segment, va)))
    && (forall va: nat :: va in rights ==> rights'[va] == rights[va])
    && rights.Keys == view.Keys && rights'.Keys == view'.Keys
    && (forall va: nat :: va in rights ==> view'[va] == view[va])
    && IsLoaded(rights', view', segment)
  }

  /** The pages a segment touches are those mapped for it. */
  lemma RunIsSegment(segment: Segment, va: nat)
    requires Placed(segment)
    ensures InRun(segment.address, PagesIn(segment.size), va) <==> va % PAGE_SIZE == 0 && Touches(segment, va)
  {
  }

  lemma MapsAndStoresAdds(rights: map<nat, Access>, view: map<nat, Page>, rights': map<nat, Access>,
                          view': map<nat, Page>, view'': map<nat, Page>, segment: Segment)
    requires Placed(segment) && forall va: nat :: va in rights ==> va % PAGE_SIZE == 0 && !Touches(segment, va)
    requires Spread(rights, view, rights', view', segment.address, PagesIn(segment.size), segment.access)
    requires IsStored(view', view'', segment.address, segment.data)
    ensures Adds(rights, view, rights', view'', segment)
  {
    hide InRun, Touches, PageOf, PagesIn;
    forall va: nat
      ensures InRun(segment.address, PagesIn(segment.size), va) <==> va % PAGE_SIZE == 0 && Touches(segment, va)
    {
      RunIsSegment(segment, va);
    }
    forall va: nat | va in rights ensures view''[va] == view[va] {
      assert view'[va] == view[va];
      KeepsClear(segment, va);
      PageKept(view', view'', segment.address, segment.data, va);
    }
    forall a: nat | segment.address <= a < segment.End()
      ensures PageOf(a) in rights' && view'[PageOf(a)] == Zeros(PAGE_SIZE) && rights'[PageOf(a)] == segment.access
    {
      TouchesOwn(segment, a);
    }
  }

  lemma KeepsClear(segment: Segment, va: nat)
    requires Placed(segment) && !Touches(segment, va)
    ensures va + PAGE_SIZE <= segment.address || segment.address + |segment.data| <= va
  {
  }

  lemma TouchesOwn(segment: Segment, a: nat)
    requires segment.address <= a < segment.End() && segment.address % PAGE_SIZE == 0
    ensures Touches(segment, PageOf(a))
  {
  }

  lemma PageKept(view: map<nat, Page>, view': map<nat, Page>, at: nat, bytes: seq<byte>, va: nat)
    requires IsStored(view, view', at, bytes) && va in view && va % PAGE_SIZE == 0
             && (va + PAGE_SIZE <= at || at + |bytes| <= va)
    ensures view'[va] == view[va]
  {
    forall k | 0 <= k < PAGE_SIZE ensures view'[va][k] == view[va][k] {
      assert PageOf(va + k) == va && (va + k) % PAGE_SIZE == k;
      assert ByteAt(view', va + k) == ByteAt(view, va + k);
    }
  }

  /** Pages of the window are page aligned and lie within it. */
  lemma PagesAreAligned(ram: Ram, s: Space, kernel: Page)
    requires IsSpace(ram, s, kernel)
    ensures forall va: nat :: va in s.rights ==> va % PAGE_SIZE == 0 && InWindow(va)
  {
  }

  lemma SegmentFits(segment: Segment)
    requires Placed(segment)
    ensures segment.address + PagesIn(segment.size) * PAGE_SIZE <= PROGRAM_END
  {
  }

  /** The pages of the first `n` segments. */
  function TotalPages(segments: seq<Segment>): nat {
    if segments == [] then 0 else TotalPages(segments[..|segments| - 1]) + PagesIn(segments[|segments| - 1].size)
  }

  lemma NoPages()
    ensures TotalPages([]) == 0
  {
  }

  lemma {:induction false} FewerPages(segments: seq<Segment>, k: nat)
    requires k <= |segments|
    ensures TotalPages(segments[..k]) <= TotalPages(segments)
    ensures k < |segments| ==> TotalPages(segments[..k + 1]) == TotalPages(segments[..k]) + PagesIn(segments[k].size)
  {
    hide PagesIn;
    if k < |segments| {
      assert segments[..k + 1][..k] == segments[..k];
      FewerPages(segments[..|segments| - 1], k);
      assert segments[..|segments| - 1][..k] == segments[..k];
    } else {
      assert segments[..k] == segments;
    }
  }

  method LoadSegment(space: AddressSpace, segment: Segment) returns (error: Option<LoadError>)
    requires space.Valid() && Placed(segment) && forall va: nat :: va in space.rights ==> !Touches(segment, va)
    modifies space`level3, space`frames, space`rights, space.memory`ram, space.memory.source
    ensures space.Valid()
    ensures error.None? ==> Adds(old(space.rights), old(space.Contents()), space.rights, space.Contents(), segment)
    ensures error.Some? ==>
            error == Some(MapFailed(OutOfMemory)) && old(space.memory.source.free) < 2 * PagesIn(segment.size)
    ensures error.None? ==> space.memory.source.free + 2 * PagesIn(segment.size) >= old(space.memory.source.free)
    ensures Beside(old(space.memory.ram), old(space.memory.Taken()), old(space.Now()), space.memory.ram,
                   space.memory.Taken(), space.Now())
  {
    hide Memory.Valid, Memory.Taken, AddressSpace.Contents, Owns, Beside, View, IsSpace, Spread, IsStored, Adds,
      Refusal, Placed, Touches, InRun, PagesIn;
    PagesAreAligned(space.memory.ram, space.Now(), space.kernel);
    ghost var rights, view := space.rights, space.Contents();
    SegmentFits(segment);
    SmallEnough(segment);
    var failed, mapped := space.MapRange(segment.address, segment.size, segment.access);
    CanBeMapped(rights, segment, mapped);
    if failed.Some? {
      return Some(MapFailed(failed.value));
    }
    ghost var ram, taken, s, view' := space.memory.ram, space.memory.Taken(), space.Now(), space.Contents();
    var fault := space.Load(segment.address, segment.data);
    SegmentAllowed(rights, view, space.rights, view', segment, fault);
    BesideTwice(old(space.memory.ram), old(space.memory.Taken()), old(space.Now()), ram, taken, s, space.memory.ram,
                space.memory.Taken(), space.Now());
    assert fault.None?;
    assert segment.data[..|segment.data|] == segment.data;
    MapsAndStoresAdds(rights, view, space.rights, view', space.Contents(), segment);
    return None;
  }

  lemma SmallEnough(segment: Segment)
    requires Placed(segment)
    ensures segment.address + segment.size < WORD
  {
  }

  lemma CanBeMapped(rights: map<nat, Access>, segment: Segment, k: nat)
    requires Placed(segment) && forall va: nat :: va in rights ==> va % PAGE_SIZE == 0 && !Touches(segment, va)
    ensures k < PagesIn(segment.size) ==> Refusal(rights, segment.address + k * PAGE_SIZE).None?
  {
  }

  lemma SegmentAllowed(rights: map<nat, Access>, view: map<nat, Page>, rights': map<nat, Access>, view': map<nat, Page>,
                       segment: Segment, fault: Option<nat>)
    requires Placed(segment)
             && Spread(rights, view, rights', view', segment.address, PagesIn(segment.size), segment.access)
    requires IsFault(rights', segment.address, |segment.data|, false, fault)
    ensures fault.None?
  {
    hide InRun, Touches, PageOf, PagesIn;
    if fault.Some? {
      TouchesOwn(segment, fault.value);
      RunIsSegment(segment, PageOf(fault.value));
    }
  }

  /** `segments` are loaded, and nothing else is mapped. */
  ghost predicate AllLoaded(rights: map<nat, Access>, view: map<nat, Page>, segments: seq<Segment>) {
    && (forall i :: 0 <= i < |segments| ==> IsLoaded(rights, view, segments[i]))
    && (forall va: nat :: va in rights ==> exists i :: 0 <= i < |segments| && Touches(segments[i], va))
  }

  lemma LoadedStays(rights: map<nat, Access>, view: map<nat, Page>, rights': map<nat, Access>, view': map<nat, Page>,
                    segment: Segment)
    requires IsLoaded(rights, view, segment) && rights.Keys == view.Keys && rights'.Keys == view'.Keys
    requires forall va: nat :: va in rights ==> va in rights' && rights'[va] == rights[va] && view'[va] == view[va]
    ensures IsLoaded(rights', view', segment)
  {
  }

  lemma OneMoreLoaded(rights: map<nat, Access>, view: map<nat, Page>, rights': map<nat, Access>, view': map<nat, Page>,
                      segments: seq<Segment>, segment: Segment)
    requires AllLoaded(rights, view, segments) && Adds(rights, view, rights', view', segment)
    ensures AllLoaded(rights', view', segments + [segment])
  {
    hide IsLoaded, Touches;
    var all := segments + [segment];
    forall i | 0 <= i < |segments| ensures IsLoaded(rights', view', all[i]) {
      assert all[i] == segments[i];
      LoadedStays(rights, view, rights', view', segments[i]);
    }
    forall va: nat | va in rights' ensures exists i :: 0 <= i < |all| && Touches(all[i], va) {
      if va in rights {
        var i :| 0 <= i < |segments| && Touches(segments[i], va);
        assert all[i] == segments[i];
      } else {
        assert all[|segments|] == segment;
      }
    }
  }

  lemma NextIsClear(rights: map<nat, Access>, view: map<nat, Page>, segments: seq<Segment>, k: nat)
    requires AllApart(segments) && k < |segments| && AllLoaded(rights, view, segments[..k])
    requires forall va: nat :: va in rights ==> va % PAGE_SIZE == 0
    ensures forall va: nat :: va in rights ==> !Touches(segments[k], va)
  {
  }

  /** Maps and fills every segment, in an address space with nothing else in it. */
  method LoadProgram(space: AddressSpace, program: Program) returns (error: Option<LoadError>)
    requires space.Valid() && space.rights == map[] && IsProgram(program)
    modifies space`level3, space`frames, space`rights, space.memory`ram, space.memory.source
    ensures space.Valid()
    ensures error.None? ==> AllLoaded(space.rights, space.Contents(), program.segments)
    ensures error.Some? ==>
            error == Some(MapFailed(OutOfMemory)) && old(space.memory.source.free) < 2 * TotalPages(program.segments)
    ensures error.None? ==> space.memory.source.free + 2 * TotalPages(program.segments) >= old(space.memory.source.free)
    ensures Beside(old(space.memory.ram), old(space.memory.Taken()), old(space.Now()), space.memory.ram,
                   space.memory.Taken(), space.Now())
  {
    hide Memory.Valid, Memory.Taken, AddressSpace.Contents, Owns, Beside, IsSpace, TotalPages, PagesIn, Adds, Placed,
      AllApart, RunsEntry;
    var segments := program.segments;
    BesideNothing(space.memory.ram, space.memory.Taken(), space.Now());
    var k := 0;
    assert TotalPages(segments[..0]) == 0 by {
      NoPages();
      assert segments[..0] == [];
    }
    while k < |segments|
      invariant 0 <= k <= |segments| && space.Valid() && AllLoaded(space.rights, space.Contents(), segments[..k])
      invariant space.memory.source.free + 2 * TotalPages(segments[..k]) >= old(space.memory.source.free)
      invariant Beside(old(space.memory.ram), old(space.memory.Taken()), old(space.Now()), space.memory.ram,
                       space.memory.Taken(), space.Now())
    {
      hide AllLoaded;
      ghost var ram, taken, s, view := space.memory.ram, space.memory.Taken(), space.Now(), space.Contents();
      PagesAreAligned(ram, s, space.kernel);
      NextIsClear(s.rights, view, segments, k);
      FewerPages(segments, k);
      FewerPages(segments, k + 1);
      error := LoadSegment(space, segments[k]);
      BesideTwice(old(space.memory.ram), old(space.memory.Taken()), old(space.Now()), ram, taken, s, space.memory.ram,
                  space.memory.Taken(), space.Now());
      if error.Some? {
        return;
      }
      OneMoreLoaded(s.rights, view, space.rights, space.Contents(), segments[..k], segments[k]);
      assert segments[..k] + [segments[k]] == segments[..k + 1];
      k := k + 1;
    }
    assert segments[..k] == segments;
    return None;
  }

  // The stack, the arguments at its top, and the heap.

  /** All pages lie below the heap end or in the stack, and the heap end below the guard page. */
  ghost predicate Laid(rights: map<nat, Access>, heapEnd: nat) {
    && USER_BASE <= heapEnd <= PROGRAM_END && heapEnd % PAGE_SIZE == 0
    && forall va: nat :: va in rights ==> va % PAGE_SIZE == 0 && (va < heapEnd || STACK_BASE <= va < STACK_TOP)
  }

  /** The page below the stack is never mapped, nor the one above it. */
  lemma GuardsStayUnmapped(rights: map<nat, Access>, heapEnd: nat, a: nat, writing: bool)
    requires Laid(rights, heapEnd) && (PROGRAM_END <= a < STACK_BASE || STACK_TOP <= a)
    ensures !Allowed(rights, a, writing)
  {
  }

  /** The program is in memory, its arguments lie at the top of its stack, and the heap starts above its last
      segment. */
  ghost predicate IsSetUp(rights: map<nat, Access>, view: map<nat, Page>, segments: seq<Segment>, args: seq<byte>,
                          argsAt: nat, heapEnd: nat)
  {
    && Laid(rights, heapEnd)
    && (forall i :: 0 <= i < |segments| ==> IsLoaded(rights, view, segments[i]) && segments[i].End() <= heapEnd)
    && (forall va: nat :: STACK_BASE <= va < STACK_TOP && va % PAGE_SIZE == 0 ==>
          va in rights && rights[va] == ReadWrite)
    && argsAt % 16 == 0 && STACK_BASE <= argsAt && argsAt + |args| <= STACK_TOP && IsRead(view, argsAt, args)
  }

  lemma StackRun(va: nat)
    ensures InRun(STACK_BASE, PagesIn(STACK_SIZE), va) <==> STACK_BASE <= va < STACK_TOP && va % PAGE_SIZE == 0
  {
  }

  lemma BelowStack(rights: map<nat, Access>, view: map<nat, Page>, segments: seq<Segment>)
    requires AllLoaded(rights, view, segments) && forall i :: 0 <= i < |segments| ==> Placed(segments[i])
    ensures forall va: nat :: va in rights ==> va < PROGRAM_END
  {
  }

  lemma StackCanBeMapped(rights: map<nat, Access>, k: nat)
    requires forall va: nat :: va in rights ==> va < PROGRAM_END
    ensures k < PagesIn(STACK_SIZE) ==> Refusal(rights, STACK_BASE + k * PAGE_SIZE).None?
  {
  }

  /** The stack is mapped, so the arguments can be put at its top. */
  lemma StackAllowed(rights: map<nat, Access>, view: map<nat, Page>, rights': map<nat, Access>, view': map<nat, Page>,
                     at: nat, len: nat, fault: Option<nat>)
    requires Spread(rights, view, rights', view', STACK_BASE, PagesIn(STACK_SIZE), ReadWrite)
    requires STACK_BASE <= at && at + len <= STACK_TOP && IsFault(rights', at, len, false, fault)
    ensures fault.None?
  {
  }

  lemma SetUpIs(rights: map<nat, Access>, view: map<nat, Page>, rights': map<nat, Access>, view': map<nat, Page>,
                view'': map<nat, Page>, segments: seq<Segment>, args: seq<byte>, argsAt: nat, heapEnd: nat)
    requires AllLoaded(rights, view, segments)
             && forall i :: 0 <= i < |segments| ==> Placed(segments[i]) && segments[i].End() <= heapEnd
    requires forall va: nat :: va in rights ==> va % PAGE_SIZE == 0
    requires Spread(rights, view, rights', view', STACK_BASE, PagesIn(STACK_SIZE), ReadWrite)
             && IsStored(view', view'', argsAt, args)
    requires argsAt % 16 == 0 && STACK_BASE <= argsAt && argsAt + |args| <= STACK_TOP
    requires USER_BASE <= heapEnd <= PROGRAM_END && heapEnd % PAGE_SIZE == 0
    ensures IsSetUp(rights', view'', segments, args, argsAt, heapEnd)
  {
    hide InRun, PagesIn, IsLoaded, IsStored, IsRead, Placed;
    BelowStack(rights, view, segments);
    forall va: nat
      ensures InRun(STACK_BASE, PagesIn(STACK_SIZE), va) <==> STACK_BASE <= va < STACK_TOP && va % PAGE_SIZE == 0
    {
      StackRun(va);
    }
    forall va: nat | va in rights
      ensures va < heapEnd && va in view' && view''.Keys == view'.Keys && view''[va] == view[va]
    {
      var i :| 0 <= i < |segments| && Touches(segments[i], va);
      SameKeysStored(view', view'', argsAt, args);
      PageKept(view', view'', argsAt, args, va);
    }
    SameKeysStored(view', view'', argsAt, args);
    forall i | 0 <= i < |segments| ensures IsLoaded(rights', view'', segments[i]) {
      LoadedStays(rights, view, rights', view'', segments[i]);
    }
    StoredReads(view', view'', argsAt, args);
  }

  lemma SameKeysStored(view: map<nat, Page>, view': map<nat, Page>, at: nat, bytes: seq<byte>)
    requires IsStored(view, view', at, bytes)
    ensures view'.Keys == view.Keys
  {
  }

  lemma StoredReads(view: map<nat, Page>, view': map<nat, Page>, at: nat, bytes: seq<byte>)
    requires IsStored(view, view', at, bytes)
    ensures IsRead(view', at, bytes)
  {
  }

  method HeapStart(program: Program) returns (end: nat)
    requires IsProgram(program)
    ensures USER_BASE <= end <= PROGRAM_END && end % PAGE_SIZE == 0
    ensures forall i :: 0 <= i < |program.segments| ==> program.segments[i].End() <= end
    ensures exists i :: 0 <= i < |program.segments| && end == RoundUp(program.segments[i].End())
  {
    hide AllApart, RoundUp;
    var max, k := 0, 0;
    while k < |program.segments|
      invariant 0 <= k <= |program.segments| && (k == 0 ==> max == 0)
      invariant forall i :: 0 <= i < k ==> program.segments[i].End() <= max
      invariant k > 0 ==> exists i :: 0 <= i < k && max == program.segments[i].End()
    {
      if program.segments[k].End() > max {
        max := program.segments[k].End();
      }
      k := k + 1;
    }
    end := RoundUp(max);
    RoundsWithin(max);
  }

  lemma RoundsWithin(end: nat)
    requires end <= PROGRAM_END
    ensures RoundUp(end) <= PROGRAM_END
  {
  }

  /** Fills a new address space with a program, its stack and its arguments. */
  method SetUp(space: AddressSpace, program: Program, args: seq<byte>) returns (done: bool, argsAt: nat, heapEnd: nat)
    requires space.Valid() && space.rights == map[] && IsProgram(program) && |args| <= MAX_ARGS
    modifies space`level3, space`frames, space`rights, space.memory`ram, space.memory.source
    ensures space.Valid()
    ensures done ==> IsSetUp(space.rights, space.Contents(), program.segments, args, argsAt, heapEnd)
    ensures !done ==> old(space.memory.source.free) < 2 * (TotalPages(program.segments) + 16)
    ensures Beside(old(space.memory.ram), old(space.memory.Taken()), old(space.Now()), space.memory.ram,
                   space.memory.Taken(), space.Now())
  {
    hide Memory.Valid, Memory.Taken, AddressSpace.Contents, Owns, Beside, IsSpace, AllApart, InOrder, RunsEntry, Placed,
      AllLoaded, Spread, Refusal, IsFault, IsStored, IsSetUp;
    argsAt, heapEnd := 0, 0;
    var error := LoadProgram(space, program);
    if error.Some? {
      return false, 0, 0;
    }
    ghost var ram, taken, s, view := space.memory.ram, space.memory.Taken(), space.Now(), space.Contents();
    PagesAreAligned(ram, s, space.kernel);
    BelowStack(s.rights, view, program.segments);
    var failed, mapped := space.MapRange(STACK_BASE, STACK_SIZE, ReadWrite);
    BesideTwice(old(space.memory.ram), old(space.memory.Taken()), old(space.Now()), ram, taken, s, space.memory.ram,
                space.memory.Taken(), space.Now());
    StackCanBeMapped(s.rights, mapped);
    if failed.Some? {
      return false, 0, 0;
    }
    argsAt := (STACK_TOP - |args|) / 16 * 16;
    ArgsFit(|args|);
    ghost var ram', taken', s', view' := space.memory.ram, space.memory.Taken(), space.Now(), space.Contents();
    var fault := space.Load(argsAt, args);
    BesideTwice(old(space.memory.ram), old(space.memory.Taken()), old(space.Now()), ram', taken', s', space.memory.ram,
                space.memory.Taken(), space.Now());
    StackAllowed(s.rights, view, space.rights, view', argsAt, |args|, fault);
    assert args[..|args|] == args;
    heapEnd := HeapStart(program);
    SetUpIs(s.rights, view, space.rights, view', space.Contents(), program.segments, args, argsAt, heapEnd);
    done := true;
  }

  lemma ArgsFit(len: nat)
    requires len <= MAX_ARGS
    ensures var at := (STACK_TOP - len) / 16 * 16; at % 16 == 0 && STACK_BASE <= at && at + len <= STACK_TOP < WORD
  {
  }

  /** A running program's memory. */
  class Process {
    const space: AddressSpace
    var heapEnd: nat

    ghost predicate Valid()
      reads this, space, space.memory, space.memory.source
    {
      space.Valid() && Laid(space.rights, heapEnd)
    }

    constructor (space: AddressSpace, heapEnd: nat)
      requires space.Valid() && Laid(space.rights, heapEnd)
      ensures Valid() && this.space == space && this.heapEnd == heapEnd
    {
      this.space, this.heapEnd := space, heapEnd;
    }

    /** Starts a program in an address space of its own, or gives back all the frames it took. */
    static method Spawn(memory: Memory, kernel: Page, program: Program, args: seq<byte>)
      returns (process: Process?, error: Option<SpawnError>, argsAt: nat)
      requires memory.Valid() && IsProgram(program)
      modifies memory`ram, memory.source
      ensures memory.Valid() && (process == null <==> error.Some?)
              && (error == Some(ArgsTooLong) <==> |args| > MAX_ARGS)
      ensures error == Some(NoMemory) ==> old(memory.source.free) < 2 + 2 * (TotalPages(program.segments) + 16)
      ensures process == null ==> memory.Taken() == old(memory.Taken())
      ensures process != null ==>
                && fresh(process) && fresh(process.space) && process.Valid() && process.space.memory == memory
                   && process.space.kernel == kernel
                && IsSetUp(process.space.rights, process.space.Contents(), program.segments, args, argsAt,
                           process.heapEnd)
                && (forall f: nat :: f in memory.Taken() <==> f in old(memory.Taken()) || Owns(process.space.Now(), f))
                && (forall f: nat :: Owns(process.space.Now(), f) ==> f !in old(memory.Taken()))
      ensures forall f: nat :: f in old(memory.Taken()) && f in old(memory.ram) ==>
                f in memory.ram && memory.ram[f] == old(memory.ram[f])
    {
      hide Memory.Valid, Memory.Taken, AddressSpace.Contents, Owns, IsSpace, Laid, IsProgram, Beside;
      if |args| > MAX_ARGS {
        return null, Some(ArgsTooLong), 0;
      }
      var space := AddressSpace.New(memory, kernel);
      if space == null {
        return null, Some(NoMemory), 0;
      }
      assert space.rights == map[] by {
        assert space.Contents().Keys == space.rights.Keys;
      }
      ghost var ram, taken, s := memory.ram, memory.Taken(), space.Now();
      var done, at, heapEnd := SetUp(space, program, args);
      OwnFrames(old(memory.ram), old(memory.Taken()), ram, taken, s, memory.ram, memory.Taken(), space.Now());
      if !done {
        space.Drop();
        return null, Some(NoMemory), 0;
      }
      process := new Process(space, heapEnd);
      error, argsAt := None, at;
    }

    /** Grows the heap by `len` bytes, in whole pages, up to the guard page: where it grew from, or nothing for want of
        memory. */
    method Grow(len: nat) returns (start: Option<nat>)
      requires Valid() && len < WORD
      modifies this`heapEnd, space`level3, space`frames, space`rights, space.memory`ram, space.memory.source
      ensures Valid() && heapEnd >= old(heapEnd)
      ensures Spread(old(space.rights), old(space.Contents()), space.rights, space.Contents(), old(heapEnd),
                     (heapEnd - old(heapEnd)) / PAGE_SIZE, ReadWrite)
      ensures start.Some? ==> start.value == old(heapEnd) && heapEnd == old(heapEnd) + PagesIn(len) * PAGE_SIZE
      ensures start.None? ==>
              (heapEnd == old(heapEnd) && old(heapEnd) + PagesIn(len) * PAGE_SIZE > PROGRAM_END)
                || old(space.memory.source.free) < 2 * PagesIn(len)
      ensures Beside(old(space.memory.ram), old(space.memory.Taken()), old(space.Now()), space.memory.ram,
                     space.memory.Taken(), space.Now())
    {
      hide Memory.Valid, Memory.Taken, AddressSpace.Contents, Owns, Beside, IsSpace, Laid, Spread, Refusal, PagesIn;
      ghost var from, mapped := heapEnd, 0;
      BesideNothing(space.memory.ram, space.memory.Taken(), space.Now());
      SpreadNone(space.rights, space.Contents(), heapEnd, ReadWrite);
      LaidBounds(space.rights, heapEnd);
      var bytes := PagesIn(len) * PAGE_SIZE;
      if bytes >= WORD || heapEnd + bytes >= WORD || heapEnd + bytes > PROGRAM_END {
        return None;
      }
      var va, end := heapEnd, heapEnd + bytes;
      start := Some(heapEnd);
      while va < end
        invariant Valid() && va == heapEnd == from + mapped * PAGE_SIZE && mapped <= PagesIn(len)
        invariant space.memory.source.free + 2 * mapped >= old(space.memory.source.free)
        invariant Spread(old(space.rights), old(space.Contents()), space.rights, space.Contents(), from, mapped,
                         ReadWrite)
        invariant Beside(old(space.memory.ram), old(space.memory.Taken()), old(space.Now()), space.memory.ram,
                         space.memory.Taken(), space.Now())
        decreases end - va
      {
        ghost var ram, taken, s, view := space.memory.ram, space.memory.Taken(), space.Now(), space.Contents();
        NextPageIsFree(s.rights, va);
        var error := space.Map(va, ReadWrite);
        BesideTwice(old(space.memory.ram), old(space.memory.Taken()), old(space.Now()), ram, taken, s, space.memory.ram,
                    space.memory.Taken(), space.Now());
        if error.Some? {
          return None;
        }
        SpreadMore(old(space.rights), old(space.Contents()), s.rights, view, from, mapped, ReadWrite);
        LaidMore(s.rights, va);
        heapEnd := va + PAGE_SIZE;
        mapped := mapped + 1;
        va := va + PAGE_SIZE;
      }
    }
  }

  lemma LaidBounds(rights: map<nat, Access>, heapEnd: nat)
    requires Laid(rights, heapEnd)
    ensures heapEnd <= PROGRAM_END < WORD && heapEnd % PAGE_SIZE == 0
  {
  }

  /** The heap ends where nothing is mapped, so it can grow for as long as there is memory. */
  lemma NextPageIsFree(rights: map<nat, Access>, heapEnd: nat)
    requires Laid(rights, heapEnd) && heapEnd < PROGRAM_END
    ensures Refusal(rights, heapEnd).None? && heapEnd !in rights
  {
  }

  lemma LaidMore(rights: map<nat, Access>, heapEnd: nat)
    requires Laid(rights, heapEnd) && heapEnd < PROGRAM_END
    ensures Laid(rights[heapEnd := ReadWrite], heapEnd + PAGE_SIZE)
  {
  }

  lemma OwnFrames(ram: Ram, taken: iset<nat>, ram': Ram, taken': iset<nat>, s: Space, ram'': Ram, taken'': iset<nat>,
                  s': Space)
    requires Beside(ram', taken', s, ram'', taken'', s')
    requires forall f: nat :: f in taken' <==> f in taken || Owns(s, f)
    requires forall f: nat :: Owns(s, f) ==> f !in taken
    requires forall f: nat :: f in taken && f in ram ==> f in ram' && ram'[f] == ram[f]
    ensures forall f: nat :: f in taken'' <==> f in taken || Owns(s', f)
    ensures forall f: nat :: Owns(s', f) ==> f !in taken
    ensures forall f: nat :: f in taken && f in ram ==> f in ram'' && ram''[f] == ram[f]
  {
  }
}
