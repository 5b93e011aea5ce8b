/** Programs: what of an ELF file is loaded, and where. */
module Elf {
  import opened Bytes
  import opened PageFrames
  import opened PageTables

  datatype ElfError =
    | Truncated | NotElf | WrongArchitecture | NotExecutable | NoSegments | Unaligned
    | OutsideProgramArea | BadSize | WritableAndExecutable | Overlapping | BadEntry

  datatype Result<+T> = Ok(value: T) | Err(error: ElfError)

  datatype Segment = Segment(address: nat, size: nat, data: seq<byte>, access: Access) {
    function End(): nat { address + size }
  }

  /** Segments in address order. */
  datatype Program = Program(entry: nat, segments: seq<Segment>)

  const MAGIC: seq<byte> := [0x7F, 0x45, 0x4C, 0x46]
  const HEADER_SIZE: nat := 64
  const PROGRAM_HEADER_SIZE: nat := 56

  function RoundUp(a: nat): (r: nat)
    ensures a <= r < a + PAGE_SIZE && r % PAGE_SIZE == 0
  {
    (a + PAGE_SIZE - 1) / PAGE_SIZE * PAGE_SIZE
  }

  /** What is wrong with the file header. */
  function HeaderFault(bytes: seq<byte>): (fault: Option<ElfError>)
    ensures fault.None? ==> |bytes| >= HEADER_SIZE
  {
    if |bytes| < HEADER_SIZE then Some(if MAGIC <= bytes then Truncated else NotElf)
    else if bytes[..4] != MAGIC then Some(NotElf)
    else if bytes[4] != 2 || bytes[5] != 1 || U16(bytes, 18) != 183 then Some(WrongArchitecture)
    else if U16(bytes, 16) != 2 then Some(NotExecutable)
    else if U16(bytes, 56) > 0 && U16(bytes, 54) < PROGRAM_HEADER_SIZE then Some(Truncated)
    else None
  }

  /** The segment a program header describes, if it is one to load that takes up memory. */
  function SegmentAt(bytes: seq<byte>, header: nat): Result<Option<Segment>> {
    if header + 4 > |bytes| then Err(Truncated)
    else if U32(bytes, header) != 1 then Ok(None)
    else if header + 48 > |bytes| then Err(Truncated)
    else
      var flags, offset, address := U32(bytes, header + 4), U64(bytes, header + 8), U64(bytes, header + 16);
      var fileSize, size := U64(bytes, header + 32), U64(bytes, header + 40);
      if address % PAGE_SIZE != 0 then Err(Unaligned)
      else if address < USER_BASE || address + size > PROGRAM_END then Err(OutsideProgramArea)
      else if fileSize > size then Err(BadSize)
      else if offset + fileSize > |bytes| then Err(Truncated)
      else
        var write, execute := flags / 2 % 2 == 1, flags % 2 == 1;
        if write && execute then Err(WritableAndExecutable)
        else if size == 0 then Ok(None)
        else
          var access := if write then ReadWrite else if execute then ReadExecute else ReadOnly;
          Ok(Some(Segment(address, size, bytes[offset..offset + fileSize], access)))
  }

  function HeaderAt(table: nat, entrySize: nat, i: nat): nat { table + i * entrySize }

  /** The segments of the first `n` program headers, or the first error among them. */
  function Found(bytes: seq<byte>, n: nat): Result<seq<Segment>>
    requires |bytes| >= HEADER_SIZE
  {
    if n == 0 then Ok([]) else
    var before := Found(bytes, n - 1);
    if before.Err? then before else
    var segment := SegmentAt(bytes, HeaderAt(U64(bytes, 32), U16(bytes, 54), n - 1));
    if segment.Err? then Err(segment.error)
    else if segment.value.None? then before
    else Ok(before.value + [segment.value.value])
  }

  /** `segment` takes up some of the page at `page`. */
  predicate Touches(segment: Segment, page: nat) { segment.address < page + PAGE_SIZE && page < segment.End() }

  ghost predicate SharePage(a: Segment, b: Segment) {
    exists page: nat :: page % PAGE_SIZE == 0 && Touches(a, page) && Touches(b, page)
  }

  ghost predicate AllApart(segments: seq<Segment>) {
    forall i, j :: 0 <= i < j < |segments| ==> !SharePage(segments[i], segments[j])
  }

  predicate Placed(segment: Segment) {
    && segment.address % PAGE_SIZE == 0 && USER_BASE <= segment.address && 0 < segment.size
       && segment.End() <= PROGRAM_END
    && |segment.data| <= segment.size
  }

  predicate RunsEntry(segment: Segment, entry: nat) {
    segment.access == ReadExecute && segment.address <= entry < segment.End()
  }

  predicate InOrder(segments: seq<Segment>) {
    forall i, j :: 0 <= i < j < |segments| ==> segments[i].address <= segments[j].address
  }

  ghost predicate IsProgram(program: Program) {
    && (forall i :: 0 <= i < |program.segments| ==> Placed(program.segments[i]))
    && InOrder(program.segments) && AllApart(program.segments)
    && exists i :: 0 <= i < |program.segments| && RunsEntry(program.segments[i], program.entry)
  }

  lemma SegmentIsPlaced(bytes: seq<byte>, header: nat)
    ensures SegmentAt(bytes, header).Ok? && SegmentAt(bytes, header).value.Some? ==>
            Placed(SegmentAt(bytes, header).value.value)
  {
  }

  // Sorting by address, and what the check of neighbours then says of all pairs.

  /** How many of `segments` start no later than `segment`. */
  function Place(segments: seq<Segment>, segment: Segment): (k: nat)
    requires InOrder(segments)
    ensures k <= |segments|
    ensures (forall i :: 0 <= i < k ==> segments[i].address <= segment.address)
            && forall i :: k <= i < |segments| ==> segment.address < segments[i].address
  {
    var n := |segments|;
    if n == 0 || segments[n - 1].address <= segment.address then n else Place(segments[..n - 1], segment)
  }

  function Insert(segments: seq<Segment>, segment: Segment): (r: seq<Segment>)
    requires InOrder(segments)
    ensures InOrder(r) && multiset(r) == multiset(segments + [segment])
  {
    var k := Place(segments, segment);
    assert segments == segments[..k] + segments[k..];
    segments[..k] + [segment] + segments[k..]
  }

  function SortByAddress(segments: seq<Segment>): (r: seq<Segment>)
    ensures InOrder(r) && multiset(r) == multiset(segments)
  {
    var n := |segments|;
    if n == 0 then [] else
    assert segments == segments[..n - 1] + [segments[n - 1]];
    Insert(SortByAddress(segments[..n - 1]), segments[n - 1])
  }

  ghost predicate ApartFrom(segments: seq<Segment>, segment: Segment) {
    forall s :: s in segments ==> !SharePage(s, segment)
  }

  lemma ApartAppended(segments: seq<Segment>, segment: Segment)
    ensures AllApart(segments + [segment]) <==> AllApart(segments) && ApartFrom(segments, segment)
  {
    hide SharePage;
    var r, n := segments + [segment], |segments|;
    assert forall i :: 0 <= i < n ==> r[i] == segments[i];
    if AllApart(r) {
      forall s | s in segments ensures !SharePage(s, segment) {
        var i :| 0 <= i < n && segments[i] == s;
        assert r[i] == s && r[n] == segment;
      }
    }
  }

  lemma ApartInserted(segments: seq<Segment>, segment: Segment, k: nat)
    requires k <= |segments|
    ensures AllApart(segments[..k] + [segment] + segments[k..]) <==> AllApart(segments) && ApartFrom(segments, segment)
  {
    hide SharePage;
    var r := segments[..k] + [segment] + segments[k..];
    forall a, b ensures SharePage(a, b) <==> SharePage(b, a) {
      ShareBothWays(a, b);
    }
    assert r[k] == segment;
    assert forall i :: 0 <= i < |segments| ==> segments[i] == r[if i < k then i else i + 1];
    assert forall i :: 0 <= i < |r| && i != k ==> r[i] == segments[if i < k then i else i - 1];
    if AllApart(r) {
      forall s | s in segments ensures !SharePage(s, segment) {
        var i :| 0 <= i < |segments| && segments[i] == s;
        assert r[if i < k then i else i + 1] == s;
      }
    }
  }

  lemma ShareBothWays(a: Segment, b: Segment)
    ensures SharePage(a, b) <==> SharePage(b, a)
  {
  }

  lemma {:induction false} SortKeepsApart(segments: seq<Segment>)
    ensures AllApart(SortByAddress(segments)) <==> AllApart(segments)
  {
    hide SharePage, AllApart;
    var n := |segments|;
    if n == 0 {
      assert SortByAddress(segments) == segments;
    } else {
      var before, last := segments[..n - 1], segments[n - 1];
      assert segments == before + [last];
      SortKeepsApart(before);
      var sorted := SortByAddress(before);
      ApartInserted(sorted, last, Place(sorted, last));
      ApartAppended(before, last);
      assert forall s :: s in sorted <==> s in multiset(sorted);
      assert forall s :: s in before <==> s in multiset(before);
    }
  }

  /** Segments in order share a page exactly if the earlier, rounded up, reaches past the start of the later. */
  lemma NeighboursShare(a: Segment, b: Segment)
    requires Placed(a) && Placed(b) && a.address <= b.address
    ensures SharePage(a, b) <==> RoundUp(a.End()) > b.address
  {
    hide RoundUp;
    if RoundUp(a.End()) > b.address {
      NoMultipleBetween(a.End(), b.address);
      assert Touches(a, b.address) && Touches(b, b.address);
    } else {
      forall page: nat | page % PAGE_SIZE == 0 && Touches(a, page) ensures !Touches(b, page) {
        NoMultipleBetween(page + 1, b.address);
      }
    }
  }

  lemma NoMultipleBetween(a: nat, b: nat)
    requires b % PAGE_SIZE == 0
    ensures RoundUp(a) > b ==> a > b
    ensures RoundUp(a) <= b <==> a <= b
    ensures a > 0 && (a - 1) % PAGE_SIZE == 0 ==> RoundUp(a) == a - 1 + PAGE_SIZE
  {
  }

  /** Neighbours in order that share no page leave no two that do. */
  lemma NeighboursSuffice(segments: seq<Segment>)
    requires InOrder(segments) && forall i :: 0 <= i < |segments| ==> Placed(segments[i])
    requires forall i :: 0 <= i < |segments| - 1 ==> RoundUp(segments[i].End()) <= segments[i + 1].address
    ensures AllApart(segments)
  {
    hide RoundUp, SharePage;
    forall i, j | 0 <= i < j < |segments| ensures !SharePage(segments[i], segments[j]) {
      assert segments[i + 1].address <= segments[j].address;
      NeighboursShare(segments[i], segments[j]);
    }
  }

  /** What parsing comes to once the program headers are read: every error has its reason, and nothing else is
      refused. */
  ghost predicate IsParsed(entry: nat, found: Result<seq<Segment>>, r: Result<Program>) {
    if found.Err? then r == Err(found.error)
    else if found.value == [] then r == Err(NoSegments)
    else if !AllApart(found.value) then r == Err(Overlapping)
    else if !exists s :: s in found.value && RunsEntry(s, entry) then r == Err(BadEntry)
    else r.Ok? && r.value.entry == entry && InOrder(r.value.segments)
         && multiset(r.value.segments) == multiset(found.value)
  }

  /** The check of neighbours in address order. */
  method Separate(segments: seq<Segment>) returns (apart: bool)
    requires InOrder(segments) && forall i :: 0 <= i < |segments| ==> Placed(segments[i])
    ensures apart <==> AllApart(segments)
  {
    hide SharePage, RoundUp, Placed, AllApart;
    var i := 0;
    while i + 1 < |segments|
      invariant 0 <= i <= |segments|
      invariant forall k :: 0 <= k < i && k + 1 < |segments| ==> RoundUp(segments[k].End()) <= segments[k + 1].address
    {
      if RoundUp(segments[i].End()) > segments[i + 1].address {
        NeighboursShare(segments[i], segments[i + 1]);
        NotApart(segments, i);
        return false;
      }
      i := i + 1;
    }
    NeighboursSuffice(segments);
    return true;
  }

  method HasEntry(segments: seq<Segment>, entry: nat) returns (has: bool)
    ensures has <==> exists s :: s in segments && RunsEntry(s, entry)
  {
    hide RunsEntry;
    var k := 0;
    while k < |segments|
      invariant 0 <= k <= |segments|
      invariant forall j :: 0 <= j < k ==> !RunsEntry(segments[j], entry)
    {
      if RunsEntry(segments[k], entry) {
        return true;
      }
      k := k + 1;
    }
    return false;
  }

  method Arrange(entry: nat, found: seq<Segment>) returns (r: Result<Program>)
    requires forall k :: 0 <= k < |found| ==> Placed(found[k])
    ensures IsParsed(entry, Ok(found), r)
    ensures r.Ok? ==> IsProgram(r.value)
  {
    hide SharePage, Placed, RunsEntry, AllApart, SortByAddress, InOrder;
    if found == [] {
      return Err(NoSegments);
    }
    var segments := SortByAddress(found);
    SortKeepsApart(found);
    SameMembers(segments, found);
    assert forall s :: s in found ==> Placed(s);
    var apart := Separate(segments);
    if !apart {
      return Err(Overlapping);
    }
    var has := HasEntry(segments, entry);
    if !has {
      return Err(BadEntry);
    }
    r := Ok(Program(entry, segments));
    ghost var s :| s in segments && RunsEntry(s, entry);
    assert exists s :: s in found && RunsEntry(s, entry);
  }

  lemma NotApart(segments: seq<Segment>, i: nat)
    requires i + 1 < |segments| && SharePage(segments[i], segments[i + 1])
    ensures !AllApart(segments)
  {
  }

  lemma SameMembers(a: seq<Segment>, b: seq<Segment>)
    requires multiset(a) == multiset(b)
    ensures |a| == |b| && forall s :: s in a <==> s in b
  {
    assert |a| == |multiset(a)| && |b| == |multiset(b)|;
    assert forall s :: s in a <==> s in multiset(a);
    assert forall s :: s in b <==> s in multiset(b);
  }

  lemma {:induction false} FirstError(bytes: seq<byte>, i: nat, n: nat)
    requires |bytes| >= HEADER_SIZE && i <= n && Found(bytes, i).Err?
    ensures Found(bytes, n) == Found(bytes, i)
    decreases n - i
  {
    hide SegmentAt, HeaderAt, U64, U16;
    if i < n {
      FirstError(bytes, i, n - 1);
    }
  }

  /** Checks `bytes` is a program that can run, and finds its segments. */
  method Parse(bytes: seq<byte>) returns (r: Result<Program>)
    requires |bytes| < WORD
    ensures HeaderFault(bytes).Some? ==> r == Err(HeaderFault(bytes).value)
    ensures HeaderFault(bytes).None? ==> IsParsed(U64(bytes, 24), Found(bytes, U16(bytes, 56)), r)
    ensures r.Ok? ==> IsProgram(r.value)
  {
    hide SegmentAt, HeaderAt, U64, U16;
    var fault := HeaderFault(bytes);
    if fault.Some? {
      return Err(fault.value);
    }
    var entry, table, entrySize, count := U64(bytes, 24), U64(bytes, 32), U16(bytes, 54), U16(bytes, 56);
    var segments: seq<Segment> := [];
    var i := 0;
    while i < count
      invariant 0 <= i <= count && Found(bytes, i) == Ok(segments)
      invariant forall k :: 0 <= k < |segments| ==> Placed(segments[k])
    {
      var header := HeaderAt(table, entrySize, i);
      // A sum past 64 bits lies past the end of any file.
      var segment := SegmentAt(bytes, header);
      SegmentIsPlaced(bytes, header);
      if segment.Err? {
        FirstError(bytes, i + 1, count);
        return Err(segment.error);
      }
      if segment.value.Some? {
        segments := segments + [segment.value.value];
      }
      i := i + 1;
    }
    r := Arrange(entry, segments);
  }
}
