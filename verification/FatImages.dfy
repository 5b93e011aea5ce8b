/** Whole directories in memory, to change and write back sector by sector. */
module FatImages {
  import opened Bytes
  import opened FatLayout
  import opened FatChains
  import opened FatNames
  import opened FatDirectory
  import opened FatDirectoryChanges
  import opened FatTree
  import opened FatWrites
  import opened FatRewrites

  /** A directory's 32-byte slots, with the sectors it lives in. */
  class DirImage {
    var sectors: seq<nat>
    var slots: seq<Slot>

    constructor (sectors: seq<nat>, slots: seq<Slot>)
      ensures this.sectors == sectors && this.slots == slots
    {
      this.sectors, this.slots := sectors, slots;
    }

    /** The 8.3 names in use, which a new alias must not repeat. */
    method ShortNames() returns (names: seq<seq<byte>>)
      ensures |names| <= |slots|
      ensures forall i :: IsInUse(slots, i) && !IsLong(slots[i]) ==> slots[i][..11] in names
      ensures forall name :: name in names ==>
                exists i :: IsInUse(slots, i) && !IsLong(slots[i]) && slots[i][..11] == name
    {
      names := [];
      var i := 0;
      while i < |slots| && !IsEnd(slots[i])
        invariant 0 <= i <= |slots| && |names| <= i
        invariant forall j :: 0 <= j < i ==> !IsEnd(slots[j])
        invariant forall j :: 0 <= j < i && IsInUse(slots, j) && !IsLong(slots[j]) ==> slots[j][..11] in names
        invariant forall name :: name in names ==>
                                   exists j :: IsInUse(slots, j) && !IsLong(slots[j]) && slots[j][..11] == name
      {
        if !IsDeleted(slots[i]) && !IsLong(slots[i]) {
          assert IsInUse(slots, i);
          names := names + [slots[i][..11]];
        }
        i := i + 1;
      }
    }

    /** The first run of `count` free slots: deleted ones, or any from the end marker on. */
    method FreeRun(count: nat) returns (at: Option<nat>)
      requires 0 < count && Tidy(slots)
      ensures at.Some? ==>
              IsPlace(slots, at.value, count) && forall a :: 0 <= a < at.value ==> !IsPlace(slots, a, count)
      ensures at.None? ==> forall a: nat :: !IsPlace(slots, a, count)
    {
      var run := 0;
      var index := 0;
      while index < |slots|
        invariant 0 <= run <= index <= |slots| && run < count
        invariant forall i :: 0 <= i < index ==> !IsEnd(slots[i])
        invariant forall i :: index - run <= i < index ==> IsFree(slots[i])
        invariant run < index ==> !IsFree(slots[index - run - 1])
        invariant forall a :: 0 <= a < index - run ==> !IsPlace(slots, a, count)
      {
        if IsEnd(slots[index]) {
          // Everything from here on is free.
          return if index - run + count <= |slots| then Some(index - run) else None;
        }
        if IsDeleted(slots[index]) {
          run := run + 1;
        } else {
          forall a | index - run <= a <= index ensures !IsPlace(slots, a, count) {
            assert !IsFree(slots[index]);
          }
          run := 0;
        }
        index := index + 1;
        if run == count {
          return Some(index - count);
        }
      }
      return None;
    }
  }

  /** Where the slots after the last in use start. */
  method FindEnd(slots: seq<Slot>) returns (end: nat)
    ensures end == EndOf(slots)
  {
    end := 0;
    while end < |slots| && !IsEnd(slots[end])
      invariant 0 <= end <= EndOf(slots)
    {
      end := end + 1;
    }
  }

  /** A slot before the end marker that is not deleted. */
  predicate IsInUse(slots: seq<Slot>, i: int) {
    0 <= i < |slots| && !IsDeleted(slots[i]) && forall j :: 0 <= j <= i ==> !IsEnd(slots[j])
  }

  /** Where the slots after the last in use start. */
  function EndOf(slots: seq<Slot>): (i: nat)
    ensures i <= |slots| && (i < |slots| ==> IsEnd(slots[i])) && forall j :: 0 <= j < i ==> !IsEnd(slots[j])
  {
    if slots == [] || IsEnd(slots[0]) then 0 else 1 + EndOf(slots[1..])
  }

  /** Where `count` new slots go: the first place free for them, or past those in use. */
  ghost predicate IsChosen(slots: seq<Slot>, count: nat, at: nat) {
    if exists a: nat :: IsPlace(slots, a, count)
    then IsPlace(slots, at, count) && forall a :: 0 <= a < at ==> !IsPlace(slots, a, count)
    else at == EndOf(slots)
  }

  /* Blocks and slots. */

  function Join(slots: seq<Slot>): (b: seq<byte>)
    ensures |b| == 32 * |slots|
  {
    if slots == [] then [] else Join(slots[..|slots| - 1]) + slots[|slots| - 1]
  }

  lemma {:induction false} JoinAt(slots: seq<Slot>, i: nat)
    requires i < |slots|
    ensures Join(slots)[32 * i..32 * i + 32] == slots[i]
  {
    if i < |slots| - 1 {
      JoinAt(slots[..|slots| - 1], i);
      assert Join(slots)[32 * i..32 * i + 32] == Join(slots[..|slots| - 1])[32 * i..32 * i + 32];
    }
  }

  /** Sector `index` of a directory with slots `slots`. */
  function BlockOf(slots: seq<Slot>, index: nat): (b: Block)
    requires 16 * index + 16 <= |slots|
    ensures BlockSlots(b) == slots[16 * index..16 * index + 16]
  {
    var part := slots[16 * index..16 * index + 16];
    BlockIsJoined(part);
    Join(part)
  }

  lemma BlockIsJoined(part: seq<Slot>)
    requires |part| == 16
    ensures BlockSlots(Join(part)) == part
  {
    hide Join;
    forall i | 0 <= i < 16 ensures SlotIn(Join(part), i) == part[i] {
      JoinAt(part, i);
    }
  }

  /** `s` is `d` with the slots in `sectors` now `slots`. */
  ghost predicate Holds(d: Disk, s: Disk, sectors: seq<nat>, slots: seq<Slot>) {
    exists blocks :: Wrote(d, s, sectors, blocks) && Slots(blocks) == slots
  }

  /** Slots of which the first `k` sectors are already written. */
  function Mixed(was: seq<Slot>, now: seq<Slot>, k: nat): (m: seq<Slot>)
    requires |was| == |now| && 16 * k <= |was|
    ensures |m| == |was| && forall i :: 0 <= i < |was| ==> m[i] == if i < 16 * k then now[i] else was[i]
  {
    now[..16 * k] + was[16 * k..]
  }

  /** Writing one more sector. */
  lemma StoreNext(d: Disk, s: Disk, sectors: seq<nat>, was: seq<Slot>, now: seq<Slot>, k: nat)
    requires |was| == |now| == 16 * |sectors| && k < |sectors| && Distinct(sectors)
    requires Holds(d, s, sectors, Mixed(was, now, k))
    ensures Holds(d, s[sectors[k] := BlockOf(now, k)], sectors, Mixed(was, now, k + 1))
  {
    hide Slots, BlockOf, Mixed, BlockSlots;
    var blocks :| Wrote(d, s, sectors, blocks) && Slots(blocks) == Mixed(was, now, k);
    var b := BlockOf(now, k);
    var s' := s[sectors[k] := b];
    var blocks' := blocks[k := b];
    assert Wrote(d, s', sectors, blocks');
    forall i | 0 <= i < |was| ensures Slots(blocks')[i] == Mixed(was, now, k + 1)[i] {
      StoredSlot(blocks, k, now, i);
    }
    assert Slots(blocks') == Mixed(was, now, k + 1);
  }

  lemma StoredSlot(blocks: seq<Block>, k: nat, now: seq<Slot>, i: nat)
    requires k < |blocks| && |now| == 16 * |blocks| && i < |now|
    ensures Slots(blocks[k := BlockOf(now, k)])[i] == if 16 * k <= i < 16 * k + 16 then now[i] else Slots(blocks)[i]
  {
    hide Slots, BlockOf;
    var b := BlockOf(now, k);
    SlotsAt(blocks[k := b], i);
    SlotsAt(blocks, i);
    if i / 16 == k {
      assert now[i] == now[16 * k..16 * k + 16][i - 16 * k] == BlockSlots(b)[i - 16 * k];
    }
  }

  lemma HoldsItself(d: Disk, sectors: seq<nat>)
    ensures Holds(d, d, sectors, Slots(Blocks(d, sectors)))
  {
  }

  /** What a directory holds where its slots are stored. */
  lemma HoldsBlocks(d: Disk, s: Disk, sectors: seq<nat>, slots: seq<Slot>) returns (blocks: seq<Block>)
    requires Holds(d, s, sectors, slots)
    ensures Wrote(d, s, sectors, blocks) && Slots(blocks) == slots && Blocks(s, sectors) == blocks
  {
    hide Slots;
    blocks :| Wrote(d, s, sectors, blocks) && Slots(blocks) == slots;
  }

  /** Storing a directory leaves the FATs as they are. */
  lemma StoredOutside(g: Geometry, d: Disk, s: Disk, sectors: seq<nat>, slots: seq<Slot>)
    requires Holds(d, s, sectors, slots) && forall i :: 0 <= i < |sectors| ==> !g.InFats(sectors[i])
    ensures forall t: nat :: g.InFats(t) ==> ReadBlock(s, t) == ReadBlock(d, t)
  {
  }
}
