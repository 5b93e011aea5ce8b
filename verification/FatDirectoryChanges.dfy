/** What changing slots of a directory does to its entries: rewriting an entry's fields, deleting an
    entry and adding one, each also when only part of its slots has been written. */
module FatDirectoryChanges {
  import opened Bytes
  import opened FatLayout
  import opened FatNames
  import opened FatLongNames
  import opened FatDirectory

  /** Everything after an end marker is unused too. */
  predicate Tidy(slots: seq<Slot>) {
    forall i, j :: 0 <= i < j < |slots| && IsEnd(slots[i]) ==> IsEnd(slots[j])
  }

  /* Where entries come from. */

  /** Each entry was found at its last slot, as the next one after those before it. */
  lemma {:induction false} EntryFoundAt(t: FatType, slots: seq<Slot>, k: nat, m: nat, p: nat)
    requires k <= |slots| && m < |ScanTo(t, slots, k).entries| && ScanTo(t, slots, k).entries[m].hi == p + 1
    ensures p < k && |ScanTo(t, slots, p).entries| == m && !ScanTo(t, slots, p).ended && IsPlain(slots[p])
    ensures Found(t, ScanTo(t, slots, p).long, slots[p], p) == [ScanTo(t, slots, k).entries[m]]
  {
    hide Found, Collected, LocatedAt, ScanTo, IsPlain, IsEnd;
    if k == 0 {
      NothingRead(t, slots);
    }
    ScanNext(t, slots, k);
    if m < |ScanTo(t, slots, k - 1).entries| {
      EntryFoundAt(t, slots, k - 1, m, p);
    }
  }

  lemma NothingRead(t: FatType, slots: seq<Slot>)
    ensures ScanTo(t, slots, 0) == START
  {
  }

  /** Reading an entry's own slot. */
  lemma EntryRead(t: FatType, slots: seq<Slot>, m: nat, p: nat)
    requires m < |Entries(t, slots)| && Entries(t, slots)[m].hi == p + 1
    ensures p < |slots| && IsPlain(slots[p])
    ensures ScanTo(t, slots, p).entries == Entries(t, slots)[..m] && !ScanTo(t, slots, p).ended
    ensures Found(t, ScanTo(t, slots, p).long, slots[p], p) == [Entries(t, slots)[m]]
    ensures ScanTo(t, slots, p + 1) == Scan(Entries(t, slots)[..m + 1], NOTHING, false)
    ensures FoundSince(t, slots, p + 1, |slots|) == Entries(t, slots)[m + 1..]
  {
    hide LocatedAt, ScanTo, Found, Collected, FoundSince, IsLong, IsDeleted;
    EntryFoundAt(t, slots, |slots|, m, p);
    ScanNext(t, slots, p + 1);
    FoundSinceSplits(t, slots, p, |slots|);
    FoundSinceSplits(t, slots, p + 1, |slots|);
  }

  /** While a name is being collected, every slot since its first piece is a piece of it. */
  lemma {:induction false} PiecesSoFar(t: FatType, slots: seq<Slot>, k: nat)
    requires k <= |slots| && !ScanTo(t, slots, k).ended && ScanTo(t, slots, k).long != NOTHING
    ensures var start := ScanTo(t, slots, k).long.start;
            && start < k && ArePieces(slots, start, k)
            && !ScanTo(t, slots, start).ended
            && ScanTo(t, slots, k).entries == ScanTo(t, slots, start).entries
  {
    hide ScanTo, AddPiece, Found, ArePieces, IsLong, IsEnd, IsDeleted, IsLast, IsPlain;
    if k == 0 {
      NothingRead(t, slots);
    }
    ScanNext(t, slots, k);
    var s, before := slots[k - 1], ScanTo(t, slots, k - 1);
    NoEntryHere(t, before.long, s, k - 1);
    if IsLast(s) {
      ArePiecesFrom(slots, k - 1);
    } else {
      PiecesSoFar(t, slots, k - 1);
      ArePiecesMore(slots, before.long.start, k - 1);
    }
  }

  lemma NoEntryHere(t: FatType, long: Collector, s: Slot, index: nat)
    ensures !IsPlain(s) ==> Found(t, long, s, index) == []
    ensures IsLong(s) ==> !IsPlain(s)
  {
  }

  /** Slots `lo..hi` are pieces of one long name, the first of them its last piece. */
  predicate ArePieces(slots: seq<Slot>, lo: nat, hi: nat)
    requires lo <= hi <= |slots|
  {
    && (forall i :: lo <= i < hi ==> IsLong(slots[i]) && !IsEnd(slots[i]) && !IsDeleted(slots[i]))
    && (forall i :: lo < i < hi ==> !IsLast(slots[i]))
  }

  lemma ArePiecesFrom(slots: seq<Slot>, lo: nat)
    requires lo < |slots| && IsLong(slots[lo]) && !IsEnd(slots[lo]) && !IsDeleted(slots[lo])
    ensures ArePieces(slots, lo, lo + 1)
  {
  }

  lemma ArePiecesMore(slots: seq<Slot>, lo: nat, hi: nat)
    requires lo < hi < |slots| && ArePieces(slots, lo, hi)
    requires IsLong(slots[hi]) && !IsEnd(slots[hi]) && !IsDeleted(slots[hi]) && !IsLast(slots[hi])
    ensures ArePieces(slots, lo, hi + 1)
  {
  }

  /** The slots of an entry before its own are pieces of its name. */
  lemma EntryPieces(t: FatType, slots: seq<Slot>, m: nat, p: nat)
    requires m < |Entries(t, slots)| && Entries(t, slots)[m].hi == p + 1
    ensures var e := Entries(t, slots)[m];
            && e.lo <= p < |slots| && ArePieces(slots, e.lo, p)
            && ScanTo(t, slots, e.lo).entries == Entries(t, slots)[..m] && !ScanTo(t, slots, e.lo).ended
  {
    hide AddPiece, EntryOf, ShortName, Found, ScanTo;
    EntryRead(t, slots, m, p);
    var long := ScanTo(t, slots, p).long;
    assert Entries(t, slots)[m] == LocatedAt(t, long, slots[p], p);
    if TakeName(long, slots[p][..11]).Some? {
      PiecesSoFar(t, slots, p);
    }
  }

  /* Rewriting fields. */

  /** Rewriting an entry's fields past its name and attributes changes that entry alone. */
  lemma RewriteEntry(t: FatType, slots: seq<Slot>, m: nat, p: nat, s: Slot)
    requires m < |Entries(t, slots)| && Entries(t, slots)[m].hi == p + 1
    requires p < |slots| && s[..20] == slots[p][..20]
    ensures var e := Entries(t, slots)[m];
            Entries(t, slots[p := s]) == Entries(t, slots)[m := Located(EntryOf(t, s, e.entry.name), e.lo, e.hi)]
  {
    hide ScanTo, Found, Collected, EntryOf, FoundSince, IsPlain, IsEnd;
    var e := Entries(t, slots)[m];
    var slots' := slots[p := s];
    EntryRead(t, slots, m, p);
    ScanPrefix(t, slots, slots', p);
    RewriteFound(t, ScanTo(t, slots, p).long, slots[p], s, p);
    var e' := Located(EntryOf(t, s, e.entry.name), e.lo, e.hi);
    ScanNext(t, slots', p + 1);
    assert ScanTo(t, slots', p + 1) == Scan(Entries(t, slots)[..m] + [e'], NOTHING, false);
    assert slots[p + 1..] == slots'[p + 1..];
    ScanSuffix(t, slots, slots', p + 1, |slots|);
    FoundSinceSplits(t, slots', p + 1, |slots|);
  }

  lemma SameHead(s: Slot, s': Slot)
    requires s[..20] == s'[..20]
    ensures s[..11] == s'[..11] && s[..8] == s'[..8] && s[8..11] == s'[8..11]
    ensures s[0] == s'[0] && s[11] == s'[11] && s[12] == s'[12] && s[13] == s'[13]
  {
    assert s[..11] == s[..20][..11] && s[..8] == s[..20][..8] && s[8..11] == s[..20][8..11];
    assert s'[..11] == s'[..20][..11] && s'[..8] == s'[..20][..8] && s'[8..11] == s'[..20][8..11];
    assert s[0] == s[..20][0] && s[11] == s[..20][11] && s[12] == s[..20][12] && s[13] == s[..20][13];
  }

  lemma RewriteFound(t: FatType, long: Collector, s: Slot, s': Slot, index: nat)
    requires s[..20] == s'[..20] && long.Fits() && |Found(t, long, s, index)| == 1
    ensures var e := Found(t, long, s, index)[0];
            Found(t, long, s', index) == [Located(EntryOf(t, s', e.entry.name), e.lo, e.hi)]
    ensures !IsEnd(s') && Collected(long, s', index) == NOTHING
  {
    SameHead(s, s');
    assert ShortName(s) == ShortName(s') by {
      hide PartName;
    }
  }

  /* Deleting. */

  predicate IsFree(s: Slot) { IsDeleted(s) || IsEnd(s) }

  lemma FreeStep(t: FatType, scan: Scan, s: Slot, index: nat)
    requires scan.long.Fits() && IsFree(s) && !scan.ended
    ensures ScanSlot(t, scan, s, index) == if IsEnd(s) then scan.(ended := true) else Scan(scan.entries, NOTHING, false)
  {
    NoEntryHere(t, scan.long, s, index);
    assert scan.entries + [] == scan.entries;
  }

  lemma PieceStep(t: FatType, scan: Scan, s: Slot, index: nat)
    requires scan.long.Fits() && IsLong(s) && !IsEnd(s) && !IsDeleted(s) && !scan.ended
    ensures ScanSlot(t, scan, s, index) == Scan(scan.entries, AddPiece(scan.long, s, index), false)
  {
    NoEntryHere(t, scan.long, s, index);
    assert scan.entries + [] == scan.entries;
  }

  function Deleted(s: Slot): Slot { s[0 := 0xE5] }

  function DeletedIf(s: Slot, deleted: bool): Slot { if deleted then Deleted(s) else s }

  /** `slots` with those of `lo..hi` marked deleted. */
  function MarkDeleted(slots: seq<Slot>, lo: nat, hi: nat): (r: seq<Slot>)
    requires lo <= hi <= |slots|
    ensures |r| == |slots|
    ensures forall i :: 0 <= i < |slots| ==> r[i] == if lo <= i < hi then Deleted(slots[i]) else slots[i]
  {
    seq(|slots|, i requires 0 <= i < |slots| => DeletedIf(slots[i], lo <= i < hi))
  }

  /** Once the first piece of a long name is deleted, the others stand for nothing. */
  lemma {:induction false} OrphanPieces(t: FatType, slots: seq<Slot>, lo: nat, to: nat, p: nat, j: nat)
    requires lo < to <= |slots| && lo < j <= p < |slots| && ArePieces(slots, lo, p)
    requires !ScanTo(t, slots, lo).ended
    ensures ScanTo(t, MarkDeleted(slots, lo, to), j) == Scan(ScanTo(t, slots, lo).entries, NOTHING, false)
  {
    hide ScanTo, ScanSlot, AddPiece, MarkDeleted;
    var slots' := MarkDeleted(slots, lo, to);
    var s := slots'[j - 1];
    ScanNext(t, slots', j);
    if j == lo + 1 {
      ScanPrefix(t, slots, slots', lo);
      FreeStep(t, ScanTo(t, slots', lo), s, lo);
    } else {
      OrphanPieces(t, slots, lo, to, p, j - 1);
      if j - 1 < to {
        FreeStep(t, ScanTo(t, slots', j - 1), s, j - 1);
      } else {
        PieceStep(t, ScanTo(t, slots', j - 1), s, j - 1);
      }
    }
  }

  /** Marking all of an entry's slots deleted removes that entry alone. Marking only the first of them
      leaves it under its 8.3 name. */
  lemma DeleteEntry(t: FatType, slots: seq<Slot>, m: nat, p: nat, to: nat)
    requires m < |Entries(t, slots)| && Entries(t, slots)[m].hi == p + 1 <= |slots|
             && Entries(t, slots)[m].lo < to <= p + 1
    ensures Entries(t, MarkDeleted(slots, Entries(t, slots)[m].lo, to))
         == Entries(t, slots)[..m] + (if to == p + 1 then [] else Found(t, NOTHING, slots[p], p))
             + Entries(t, slots)[m + 1..]
  {
    hide ScanTo, Found, FoundSince, MarkDeleted, IsPlain, ArePieces, IsLong;
    var lo := Entries(t, slots)[m].lo;
    var slots' := MarkDeleted(slots, lo, to);
    EntryRead(t, slots, m, p);
    EntryPieces(t, slots, m, p);
    if lo < p {
      OrphanPieces(t, slots, lo, to, p, p);
    } else {
      ScanPrefix(t, slots, slots', p);
    }
    ScanNext(t, slots', p + 1);
    if to == p + 1 {
      FreeStep(t, ScanTo(t, slots', p), slots'[p], p);
    } else {
      PlainStep(t, Scan(Entries(t, slots)[..m], NOTHING, false), slots[p], p);
    }
    assert slots[p + 1..] == slots'[p + 1..];
    ScanSuffix(t, slots, slots', p + 1, |slots|);
    FoundSinceSplits(t, slots', p + 1, |slots|);
  }

  lemma PlainStep(t: FatType, scan: Scan, s: Slot, index: nat)
    requires scan.long.Fits() && IsPlain(s) && !scan.ended
    ensures ScanSlot(t, scan, s, index) == Scan(scan.entries + Found(t, scan.long, s, index), NOTHING, false)
  {
  }

  /* Adding. */

  predicate HasEnd(slots: seq<Slot>, lo: nat, hi: nat)
    requires lo <= hi <= |slots|
  {
    exists i :: lo <= i < hi && IsEnd(slots[i])
  }

  predicate AllFree(slots: seq<Slot>, lo: nat, hi: nat)
    requires lo <= hi <= |slots|
  {
    forall i :: lo <= i < hi ==> IsFree(slots[i])
  }

  /** Free slots add nothing, and drop a name being collected. */
  lemma {:induction false} ScanFree(t: FatType, slots: seq<Slot>, from: nat, j: nat)
    requires from < j <= |slots| && !ScanTo(t, slots, from).ended && AllFree(slots, from, j)
    ensures ScanTo(t, slots, j).entries == ScanTo(t, slots, from).entries
    ensures ScanTo(t, slots, j).ended <==> HasEnd(slots, from, j)
    ensures !ScanTo(t, slots, j).ended ==> ScanTo(t, slots, j).long == NOTHING
  {
    hide ScanTo, ScanSlot, IsEnd, IsDeleted;
    ScanNext(t, slots, j);
    var before := ScanTo(t, slots, j - 1);
    if j - 1 > from {
      ScanFree(t, slots, from, j - 1);
    }
    if !before.ended {
      FreeStep(t, before, slots[j - 1], j - 1);
    } else {
      EndedStep(t, before, slots[j - 1], j - 1);
    }
  }

  lemma EndedStep(t: FatType, scan: Scan, s: Slot, index: nat)
    requires scan.long.Fits() && scan.ended
    ensures ScanSlot(t, scan, s, index) == scan
  {
  }

  /** A place for `n` slots: free, with no end marker before it. */
  predicate IsPlace(slots: seq<Slot>, at: nat, n: nat) {
    at + n <= |slots| && AllFree(slots, at, at + n) && forall i :: 0 <= i < at ==> !IsEnd(slots[i])
  }

  lemma {:induction false} NotEndedBefore(t: FatType, slots: seq<Slot>, k: nat)
    requires k <= |slots| && forall i :: 0 <= i < k ==> !IsEnd(slots[i])
    ensures !ScanTo(t, slots, k).ended
  {
    hide ScanTo, Found, Collected, IsEnd;
    if k == 0 {
      NothingRead(t, slots);
    } else {
      NotEndedBefore(t, slots, k - 1);
      ScanNext(t, slots, k);
    }
  }

  predicate AllPieces(slots: seq<Slot>) {
    forall i :: 0 <= i < |slots| ==> IsLong(slots[i]) && !IsEnd(slots[i]) && !IsDeleted(slots[i])
  }

  /** Pieces put in place add nothing by themselves. */
  lemma {:induction false} ScanPieces(t: FatType, slots: seq<Slot>, at: nat, pieces: seq<Slot>, k: nat)
    requires at + k <= |slots| && k <= |pieces| && slots[at..at + k] == pieces[..k] && AllPieces(pieces)
    requires !ScanTo(t, slots, at).ended
    ensures ScanTo(t, slots, at + k)
            == Scan(ScanTo(t, slots, at).entries, Collect(ScanTo(t, slots, at).long, pieces, at, k), false)
  {
    hide ScanTo, ScanSlot, AddPiece, IsLong, IsEnd, IsDeleted;
    if k > 0 {
      assert slots[at..at + (k - 1)] == slots[at..at + k][..k - 1] == pieces[..k][..k - 1] == pieces[..k - 1];
      assert slots[at + k - 1] == slots[at..at + k][k - 1] == pieces[k - 1];
      ScanPieces(t, slots, at, pieces, k - 1);
      ScanNext(t, slots, at + k);
      PieceStep(t, ScanTo(t, slots, at + k - 1), slots[at + k - 1], at + k - 1);
    }
  }

  /** Writing over free slots leaves no end marker before others in use. */
  lemma PlaceTidy(slots: seq<Slot>, at: nat, n: nat, added: seq<Slot>)
    requires IsPlace(slots, at, n) && Tidy(slots) && |added| <= n
    requires forall i :: 0 <= i < |added| ==> !IsEnd(added[i])
    ensures Tidy(Patch(slots, at, added))
    ensures |added| < n ==> (HasEnd(slots, at, at + n) <==> HasEnd(Patch(slots, at, added), at + |added|, at + n))
    ensures AllFree(Patch(slots, at, added), at + |added|, at + n)
    ensures HasEnd(slots, at, at + n) ==> AllFree(Patch(slots, at, added), at + n, |slots|)
  {
    hide IsEnd, IsDeleted;
    var slots' := Patch(slots, at, added);
    if HasEnd(slots, at, at + n) {
      var i :| at <= i < at + n && IsEnd(slots[i]);
      assert forall j :: i <= j < |slots| ==> IsEnd(slots[j]);
      if |added| < n {
        var j := if i < at + |added| then at + |added| else i;
        assert IsEnd(slots'[j]);
      }
    }
  }

  /** While some of a new entry's slots are not yet written, the directory reads as before. */
  lemma AddPart(t: FatType, slots: seq<Slot>, at: nat, n: nat, pieces: seq<Slot>)
    requires IsPlace(slots, at, n) && Tidy(slots) && |pieces| < n && AllPieces(pieces)
    ensures Entries(t, Patch(slots, at, pieces)) == Entries(t, slots)
  {
    hide ScanTo, Patch, FoundSince, IsLong, IsEnd, IsDeleted, HasEnd, Tidy;
    var slots' := Patch(slots, at, pieces);
    var k := |pieces|;
    NotEndedBefore(t, slots, at);
    ScanPrefix(t, slots, slots', at);
    assert slots'[at..at + k] == pieces == pieces[..k];
    ScanPieces(t, slots', at, pieces, k);
    PlaceTidy(slots, at, n, pieces);
    ScanFree(t, slots, at, at + n);
    ScanFree(t, slots', at + k, at + n);
    assert slots[at + n..] == slots'[at + n..];
    if HasEnd(slots, at, at + n) {
      ScanStops(t, slots, at + n, |slots|);
      ScanStops(t, slots', at + n, |slots|);
    } else {
      ScanSuffix(t, slots, slots', at + n, |slots|);
      FoundSinceSplits(t, slots, at + n, |slots|);
      FoundSinceSplits(t, slots', at + n, |slots|);
    }
  }

  /** Once all the slots of a new entry are written, the directory has what they stand for more. */
  lemma AddWhole(t: FatType, slots: seq<Slot>, at: nat, added: seq<Slot>, found: seq<Located>)
    requires IsPlace(slots, at, |added|) && Tidy(slots) && 0 < |added|
    requires forall i :: 0 <= i < |added| ==> !IsEnd(added[i])
    requires ScanTo(t, Patch(slots, at, added), at + |added|)
             == Scan(ScanTo(t, slots, at).entries + found, NOTHING, false)
    ensures var m := |ScanTo(t, slots, at).entries|;
            && m <= |Entries(t, slots)|
            && Entries(t, Patch(slots, at, added)) == Entries(t, slots)[..m] + found + Entries(t, slots)[m..]
  {
    hide ScanTo, Patch, FoundSince, IsLong, IsEnd, IsDeleted, Tidy;
    var slots' := Patch(slots, at, added);
    var n := |added|;
    NotEndedBefore(t, slots, at);
    PlaceTidy(slots, at, n, added);
    ScanFree(t, slots, at, at + n);
    assert slots[at + n..] == slots'[at + n..];
    if HasEnd(slots, at, at + n) {
      ScanStops(t, slots, at + n, |slots|);
      if at + n < |slots| {
        ScanFree(t, slots', at + n, |slots|);
      }
    } else {
      ScanSuffix(t, slots, slots', at + n, |slots|);
      FoundSinceSplits(t, slots, at + n, |slots|);
      FoundSinceSplits(t, slots', at + n, |slots|);
    }
  }
}
