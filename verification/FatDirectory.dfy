/** Directories as arrays of slots: reading their entries, and what adding, changing and deleting
    slots does to them. */
module FatDirectory {
  import opened Bytes
  import opened FatLayout
  import opened FatNames
  import opened FatLongNames

  datatype Kind = File | Directory

  datatype DirEntry = DirEntry(name: Name, kind: Kind, size: nat, date: nat, time: nat, first: nat)

  /** An entry, and the slots `lo..hi` it takes up: its long name pieces, then itself. */
  datatype Located = Located(entry: DirEntry, lo: nat, hi: nat)

  /** The entry an 8.3 slot makes under `name`. */
  function EntryOf(t: FatType, s: Slot, name: Name): (e: DirEntry)
    ensures e.name == name
  {
    var high := if t.Fat32? then U16(s, 20) else 0;
    DirEntry(
      name,
      if IsDirectory(s) then Directory else File,
      if IsDirectory(s) then 0 else U32(s, 28),
      U16(s, 24), U16(s, 22),
      0x1_0000 * high + U16(s, 26))
  }

  /** Reading a directory, part way: the entries found, the long name being collected, and whether
      the end marker was met. */
  datatype Scan = Scan(entries: seq<Located>, long: Collector, ended: bool)

  const START := Scan([], NOTHING, false)

  /** The entry in plain slot `index`: under the long name collected for it, or its 8.3 name. */
  function LocatedAt(t: FatType, long: Collector, s: Slot, index: nat): (e: Located)
    ensures e.hi == index + 1
    ensures long == NOTHING || long.start <= index ==> e.lo <= index
  {
    var name := TakeName(long, s[..11]);
    if name.Some? then Located(EntryOf(t, s, name.value), long.start, index + 1)
    else Located(EntryOf(t, s, ShortName(s)), index, index + 1)
  }

  predicate IsDots(n: Name) { n == DOT || n == DOT_DOT }

  /** The entry slot `index` adds, if it does. */
  function Found(t: FatType, long: Collector, s: Slot, index: nat): (found: seq<Located>)
    ensures |found| <= 1 && (found != [] ==> IsPlain(s) && found[0] == LocatedAt(t, long, s, index))
  {
    if !IsPlain(s) || IsDots(LocatedAt(t, long, s, index).entry.name) then [] else [LocatedAt(t, long, s, index)]
  }

  /** The long name being collected once slot `index` is read: only a piece keeps it going. */
  function Collected(long: Collector, s: Slot, index: nat): (r: Collector)
    requires long.Fits()
    ensures r.Fits() && (r != NOTHING ==> IsLong(s) && !IsDeleted(s))
    ensures long == NOTHING || long.start < index ==> r == NOTHING || r.start <= index
  {
    if !IsDeleted(s) && IsLong(s) then AddPiece(long, s, index) else NOTHING
  }

  function ScanSlot(t: FatType, scan: Scan, s: Slot, index: nat): (r: Scan)
    requires scan.long.Fits()
    ensures r.long.Fits()
    ensures scan.long == NOTHING || scan.long.start < index ==> r.long == NOTHING || r.long.start <= index
  {
    if scan.ended then scan
    else if IsEnd(s) then scan.(ended := true)
    else Scan(scan.entries + Found(t, scan.long, s, index), Collected(scan.long, s, index), false)
  }

  /** Reading the first `k` slots. */
  function ScanTo(t: FatType, slots: seq<Slot>, k: nat): (r: Scan)
    requires k <= |slots|
    ensures r.long.Fits() && (r.long == NOTHING || r.long.start < k)
  {
    if k == 0 then START else ScanSlot(t, ScanTo(t, slots, k - 1), slots[k - 1], k - 1)
  }

  /** The entries of a directory. */
  function Entries(t: FatType, slots: seq<Slot>): seq<Located> {
    ScanTo(t, slots, |slots|).entries
  }

  /** Collects the pieces of a long name, which come before their 8.3 entry, last piece first. Dropping
      a name leaves its checksum behind. */
  class LongName {
    var units: seq<Unit>
    var checksum: byte
    /** The next piece expected (counting down to 1), or 0 if none is in progress. */
    var expected: nat

    constructor ()
      ensures StandsFor(NOTHING)
    {
      units, checksum, expected := [], 0, 0;
    }

    ghost predicate StandsFor(c: Collector)
      reads this
    {
      && units == c.units && expected == c.expected && c.Fits()
      && (units == [] ==> expected == 0 && c == NOTHING) && (units != [] ==> checksum == c.checksum)
    }

    method Reset()
      modifies this
      ensures StandsFor(NOTHING)
    {
      units, expected := [], 0;
    }

    method Add(s: Slot, ghost c: Collector, ghost index: nat)
      requires StandsFor(c)
      modifies this
      ensures StandsFor(AddPiece(c, s, index))
    {
      var seqNo: nat := s[0] % 0x20;
      if IsLast(s) {
        units, checksum, expected := Blank(seqNo * LFN_CHARS), s[13], seqNo;
      }
      if seqNo == 0 || seqNo != expected || s[13] != checksum {
        Reset();
      } else {
        units := Patch(units, (seqNo - 1) * LFN_CHARS, SlotUnits(s));
        expected := expected - 1;
      }
    }

    method Take(short: seq<byte>, ghost c: Collector) returns (name: Option<Name>)
      requires StandsFor(c)
      modifies this
      ensures name == TakeName(c, short) && StandsFor(NOTHING)
    {
      name := None;
      if expected == 0 && units != [] && checksum == Checksum(short) {
        name := Some(DecodeUnits(units[..NameLength(units)]));
      }
      Reset();
    }
  }

  /** Reads a directory's entries. */
  method ParseLocated(t: FatType, slots: seq<Slot>) returns (entries: seq<Located>)
    ensures entries == Entries(t, slots)
  {
    hide AddPiece, EntryOf, ShortName, TakeName, IsDots;
    entries := [];
    var long := new LongName();
    var longStart := 0;
    var index := 0;
    while index < |slots|
      invariant 0 <= index <= |slots| && fresh(long)
      invariant var scan := ScanTo(t, slots, index);
                && entries == scan.entries && !scan.ended
                && long.StandsFor(scan.long) && (scan.long != NOTHING ==> longStart == scan.long.start)
    {
      var s := slots[index];
      ghost var scan := ScanTo(t, slots, index);
      assert ScanTo(t, slots, index + 1) == ScanSlot(t, scan, s, index);
      assert scan.entries + [] == scan.entries;
      if IsEnd(s) {
        ScanStops(t, slots, index + 1, |slots|);
        return;
      } else if IsDeleted(s) {
        long.Reset();
      } else if IsLong(s) {
        if IsLast(s) {
          longStart := index;
        }
        long.Add(s, scan.long, index);
      } else if IsVolumeId(s) {
        long.Reset();
      } else {
        var longName := long.Take(s[..11], scan.long);
        var lo := if longName.Some? then longStart else index;
        var name := if longName.Some? then longName.value else ShortName(s);
        assert LocatedAt(t, scan.long, s, index) == Located(EntryOf(t, s, name), lo, index + 1);
        if !IsDots(name) {
          entries := entries + [Located(EntryOf(t, s, name), lo, index + 1)];
        }
      }
      index := index + 1;
    }
  }

  lemma ScanNext(t: FatType, slots: seq<Slot>, k: nat)
    requires 0 < k <= |slots|
    ensures ScanTo(t, slots, k) == ScanSlot(t, ScanTo(t, slots, k - 1), slots[k - 1], k - 1)
  {
  }

  /** Nothing is read past the end marker. */
  lemma {:induction false} ScanStops(t: FatType, slots: seq<Slot>, k: nat, m: nat)
    requires k <= m <= |slots| && ScanTo(t, slots, k).ended
    ensures ScanTo(t, slots, m) == ScanTo(t, slots, k)
  {
    hide ScanTo, Found, Collected, IsEnd;
    if k < m {
      ScanStops(t, slots, k, m - 1);
      ScanNext(t, slots, m);
    }
  }

  lemma {:induction false} ScanPrefix(t: FatType, slots: seq<Slot>, slots': seq<Slot>, k: nat)
    requires k <= |slots| && k <= |slots'| && slots[..k] == slots'[..k]
    ensures ScanTo(t, slots, k) == ScanTo(t, slots', k)
  {
    if k > 0 {
      assert slots[..k][..k - 1] == slots[..k - 1] && slots'[..k][..k - 1] == slots'[..k - 1];
      ScanPrefix(t, slots, slots', k - 1);
      assert slots[k - 1] == slots[..k][k - 1] == slots'[..k][k - 1];
    }
  }

  /** What reading slot `k` of a directory adds. */
  function Adds(t: FatType, slots: seq<Slot>, k: nat): seq<Located>
    requires k < |slots|
  {
    var scan := ScanTo(t, slots, k);
    if scan.ended || IsEnd(slots[k]) then [] else Found(t, scan.long, slots[k], k)
  }

  /** The entries found from slot `from` on. */
  function FoundSince(t: FatType, slots: seq<Slot>, from: nat, k: nat): seq<Located>
    requires from <= k <= |slots|
  {
    if from == k then [] else FoundSince(t, slots, from, k - 1) + Adds(t, slots, k - 1)
  }

  lemma FoundNext(t: FatType, slots: seq<Slot>, from: nat, k: nat)
    requires from < k <= |slots|
    ensures FoundSince(t, slots, from, k) == FoundSince(t, slots, from, k - 1) + Adds(t, slots, k - 1)
  {
  }

  lemma AddsNext(t: FatType, slots: seq<Slot>, k: nat)
    requires k < |slots|
    ensures ScanTo(t, slots, k + 1).entries == ScanTo(t, slots, k).entries + Adds(t, slots, k)
  {
  }

  /** Entries only get added. */
  lemma {:induction false} FoundSinceSplits(t: FatType, slots: seq<Slot>, from: nat, k: nat)
    requires from <= k <= |slots|
    ensures ScanTo(t, slots, k).entries == ScanTo(t, slots, from).entries + FoundSince(t, slots, from, k)
  {
    hide ScanTo, Adds, FoundSince;
    if from == k {
      FoundNone(t, slots, from);
    } else {
      FoundSinceSplits(t, slots, from, k - 1);
      FoundNext(t, slots, from, k);
      AddsNext(t, slots, k - 1);
    }
  }

  lemma FoundNone(t: FatType, slots: seq<Slot>, from: nat)
    requires from <= |slots|
    ensures FoundSince(t, slots, from, from) == []
  {
  }

  lemma ScanAlike(t: FatType, slots: seq<Slot>, slots': seq<Slot>, k: nat)
    requires k < |slots| == |slots'| && slots[k] == slots'[k]
    requires ScanTo(t, slots, k).long == ScanTo(t, slots', k).long
             && ScanTo(t, slots, k).ended == ScanTo(t, slots', k).ended
    ensures Adds(t, slots, k) == Adds(t, slots', k)
    ensures ScanTo(t, slots, k + 1).long == ScanTo(t, slots', k + 1).long
    ensures ScanTo(t, slots, k + 1).ended == ScanTo(t, slots', k + 1).ended
  {
  }

  /** From where two directories are alike and no name is half collected, they read alike. */
  lemma {:induction false} ScanSuffix(t: FatType, slots: seq<Slot>, slots': seq<Slot>, from: nat, k: nat)
    requires from <= k <= |slots| == |slots'| && slots[from..] == slots'[from..]
    requires ScanTo(t, slots, from).long == ScanTo(t, slots', from).long
    requires ScanTo(t, slots, from).ended == ScanTo(t, slots', from).ended
    ensures FoundSince(t, slots, from, k) == FoundSince(t, slots', from, k)
    ensures ScanTo(t, slots, k).long == ScanTo(t, slots', k).long
    ensures ScanTo(t, slots, k).ended == ScanTo(t, slots', k).ended
  {
    hide ScanTo, Adds, FoundSince;
    if from == k {
      FoundNone(t, slots, from);
      FoundNone(t, slots', from);
    } else {
      ScanSuffix(t, slots, slots', from, k - 1);
      assert slots[k - 1] == slots[from..][k - 1 - from] == slots'[from..][k - 1 - from] == slots'[k - 1];
      ScanAlike(t, slots, slots', k - 1);
      FoundNext(t, slots, from, k);
      FoundNext(t, slots', from, k);
    }
  }

  lemma {:induction false} EntryBounds(t: FatType, slots: seq<Slot>, k: nat, m: nat)
    requires k <= |slots| && m < |ScanTo(t, slots, k).entries|
    ensures var e := ScanTo(t, slots, k).entries[m]; e.lo < e.hi <= k
  {
    hide Found, Collected, LocatedAt, IsEnd, IsPlain;
    if m < |ScanTo(t, slots, k - 1).entries| {
      EntryBounds(t, slots, k - 1, m);
    }
  }
}
