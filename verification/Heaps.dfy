/** A first-fit heap whose free list is stored in the free memory itself. */
module Heaps {
  import opened Arithmetic
  import opened Bytes
  import opened Ranges
  import opened FreeLists

  /** What is written at the start of a free block. */
  datatype Header = Header(size: nat, next: nat)

  const NULL: nat := 0

  predicate IsPowerOfTwo(n: nat) { n == 1 || (n > 1 && n % 2 == 0 && IsPowerOfTwo(n / 2)) }

  lemma BigPowers(n: nat)
    requires IsPowerOfTwo(n) && n >= BLOCK_ALIGN
    ensures n % BLOCK_ALIGN == 0
  {
    assert IsPowerOfTwo(n / 2) && IsPowerOfTwo(n / 2 / 2) && IsPowerOfTwo(n / 2 / 2 / 2);
    assert n / 2 / 2 / 2 % 2 == 0;
  }

  predicate IsAligned(s: nat, align: nat)
    requires 0 < align
  {
    s % align == 0
  }

  function AlignUp(v: nat, align: nat): (r: nat)
    requires 0 < align
    ensures v <= r < v + align && IsAligned(r, align)
  {
    var q := (v + align - 1) / align;
    ModUnique(align, q, 0);
    assert v + align - 1 == align * q + (v + align - 1) % align;
    align * q
  }

  /** No aligned address lies between. */
  lemma AlignUpLeast(v: nat, align: nat, s: nat)
    requires 0 < align && v <= s && IsAligned(s, align)
    ensures AlignUp(v, align) <= s
  {
    hide AlignUp;
    var r := AlignUp(v, align);
    assert r - s == align * (r / align - s / align);
    FarApart(align, r / align - s / align);
  }

  /** What `size` bytes take up. */
  function BlockSize(size: nat): (n: nat)
    ensures 0 < n && OnGrid(n) && size <= n
  {
    AlignUp(if size < 1 then 1 else size, BLOCK_ALIGN)
  }

  function AlignOf(align: nat): nat { if align < BLOCK_ALIGN then BLOCK_ALIGN else align }

  /** An allocation of `n` bytes could be at `s`. */
  predicate Fits(blocks: seq<Block>, s: nat, n: nat, align: nat)
    requires 0 < align
  {
    IsAligned(s, align) && AllFree(blocks, s, s + n)
  }

  /** No aligned address has `n` bytes of the block from it on. */
  ghost predicate NoRoom(b: Block, n: nat, align: nat)
    requires 0 < align
  {
    forall s: nat :: IsAligned(s, align) ==> !(b.start <= s && s + n <= b.End())
  }

  /* The list in memory. */

  function HeadOf(blocks: seq<Block>, i: nat): nat { if i < |blocks| then blocks[i].start else NULL }

  predicate Links(mem: map<nat, Header>, blocks: seq<Block>, i: nat)
    requires i < |blocks|
  {
    blocks[i].start in mem && mem[blocks[i].start] == Header(blocks[i].size, HeadOf(blocks, i + 1))
  }

  /** The headers in memory make the list `blocks`. */
  predicate Chained(mem: map<nat, Header>, head: nat, blocks: seq<Block>) {
    head == HeadOf(blocks, 0) && forall i :: 0 <= i < |blocks| ==> Links(mem, blocks, i)
  }

  /** Whatever is written to memory that is not free, the list stays. */
  lemma ScribblesAreHarmless(mem: map<nat, Header>, mem': map<nat, Header>, head: nat, blocks: seq<Block>)
    requires IsList(blocks) && Chained(mem, head, blocks)
             && forall a :: a in mem && IsFree(blocks, a) ==> a in mem' && mem'[a] == mem[a]
    ensures Chained(mem', head, blocks)
  {
    forall i | 0 <= i < |blocks| ensures Links(mem', blocks, i) {
      assert Links(mem, blocks, i) && blocks[i].Covers(blocks[i].start);
    }
  }

  class Heap {
    var head: nat
    var mem: map<nat, Header>
    var total: nat
    var used: nat
    /** The free list, and the list of all the memory the heap was given. */
    ghost var blocks: seq<Block>
    ghost var owned: seq<Block>

    ghost predicate Valid()
      reads this
    {
      && IsList(blocks) && Chained(mem, head, blocks)
      && IsList(owned) && (forall a: nat :: IsFree(blocks, a) ==> IsFree(owned, a))
      && total == Total(owned) && used + Total(blocks) == total
    }

    /** A heap with no memory. */
    constructor ()
      ensures Valid() && total == used == 0 && owned == blocks == []
    {
      head, mem, total, used, blocks, owned := NULL, map[], 0, 0, [], [];
    }

    /** Allocates a block for `size` bytes, or returns null if none is free. */
    method Alloc(size: nat, align: nat) returns (p: nat)
      requires Valid() && IsPowerOfTwo(align)
      modifies this
      ensures Valid() && owned == old(owned) && total == old(total)
      ensures var n, a := BlockSize(size), AlignOf(align);
              && (p == NULL ==> blocks == old(blocks) && used == old(used) && forall s: nat :: !Fits(blocks, s, n, a))
              && (p != NULL ==>
                    && Fits(old(blocks), p, n, a) && (forall s :: 0 <= s < p ==> !Fits(old(blocks), s, n, a))
                    && used == old(used) + n
                       && forall b: nat :: IsFree(blocks, b) <==> IsFree(old(blocks), b) && !(p <= b < p + n))
    {
      hide IsList, Chained, OnGrid, Total, IsFree, AlignUp, Fits;
      var n, a := BlockSize(size), AlignOf(align);
      AlignIsGrid(align);
      var prev := NULL;
      ghost var i := 0;
      while true
        invariant 0 <= i <= |blocks| && prev == (if i == 0 then NULL else blocks[i - 1].start)
        invariant unchanged(this) && forall k :: 0 <= k < i ==> NoRoom(blocks[k], n, a)
        decreases |blocks| - i
      {
        LinkAt(mem, head, blocks, i);
        var block := if prev == NULL then head else mem[prev].next;
        if block == NULL {
          NoneFits(blocks, n, a);
          return NULL;
        }
        var blockEnd := block + mem[block].size;
        var start := AlignUp(block, a);
        StartIsGrid(blocks, i, start, a, n);
        if start + n <= blockEnd {
          var end := start + n;
          FirstFit(blocks, i, start, n, a);
          TakenList(blocks, i, start, end);
          TakenChained(mem, head, blocks, i, start, end);
          ghost var after := TakeOut(mem, head, blocks, i, start, end);
          // Give back what is left after the allocation...
          var rest := mem[block].next;
          if end < blockEnd {
            mem := mem[end := Header(blockEnd - end, rest)];
            rest := end;
          }
          // ...and before it, when aligning skipped some of the block.
          if start > block {
            mem := mem[block := Header(start - block, rest)];
          } else if prev == NULL {
            head := rest;
          } else {
            mem := mem[prev := mem[prev].(next := rest)];
          }
          assert (mem, head) == after;
          blocks := Taken(blocks, i, start, end);
          used := used + n;
          return start;
        }
        forall s: nat | IsAligned(s, a) && block <= s ensures s + n > blockEnd {
          AlignUpLeast(block, a, s);
        }
        assert NoRoom(blocks[i], n, a);
        prev := block;
        i := i + 1;
      }
    }

    /** Returns `start..start + size` to the free list, merging it with its neighbours; not if some of it
        is free already. */
    method GiveBack(start: nat, size: nat) returns (ok: bool)
      requires IsList(blocks) && Chained(mem, head, blocks) && Block(start, size).Aligned()
      modifies this`mem, this`head, this`blocks
      ensures IsList(blocks) && Chained(mem, head, blocks)
      ensures ok <==> NoneFree(old(blocks), start, start + size)
      ensures blocks == if ok then Given(old(blocks), start, size) else old(blocks)
    {
      hide IsList, Chained, OnGrid, IsFree, Before, Given;
      // Find the free blocks right before and after the freed range.
      var prev, next := NULL, head;
      ghost var i := 0;
      LinkAt(mem, head, blocks, 0);
      while next != NULL && next < start
        invariant 0 <= i <= |blocks| && prev == (if i == 0 then NULL else blocks[i - 1].start)
                  && next == HeadOf(blocks, i)
        invariant unchanged(this) && forall k :: 0 <= k < i ==> blocks[k].start < start
        decreases |blocks| - i
      {
        BeforeEnd(blocks, i, next);
        LinkAt(mem, head, blocks, i);
        prev, next := next, mem[next].next;
        i := i + 1;
      }
      LinkAt(mem, head, blocks, i);
      if i > 0 {
        LinkAt(mem, head, blocks, i - 1);
      }
      BeforeIs(blocks, start, i);
      ApartIs(blocks, start, size);
      var end := start + size;
      var prevEnd := if prev == NULL then 0 else prev + mem[prev].size;
      if start < prevEnd || (next != NULL && end > next) {
        return false;
      }
      GivenList(blocks, start, size);
      GivenChained(mem, head, blocks, i, start, size);
      ghost var after := GiveOut(mem, head, blocks, i, start, size);
      var merged, rest := size, next;
      if next != NULL && end == next {
        merged, rest := size + mem[next].size, mem[next].next;
      }
      if prev != NULL && prevEnd == start {
        mem := mem[prev := Header(mem[prev].size + merged, rest)];
      } else {
        mem := mem[start := Header(merged, rest)];
        if prev == NULL {
          head := start;
        } else {
          mem := mem[prev := mem[prev].(next := start)];
        }
      }
      assert (mem, head) == after;
      blocks := Given(blocks, start, size);
      return true;
    }

    /** Frees a block that came from `Alloc`. Freeing memory that is free already panics: then `ok` is
        false. */
    method Dealloc(p: nat, size: nat) returns (ok: bool)
      requires Valid() && Block(p, BlockSize(size)).Aligned() && AllFree(owned, p, p + BlockSize(size))
      modifies this
      ensures Valid() && owned == old(owned) && total == old(total)
      ensures ok <==> NoneFree(old(blocks), p, p + BlockSize(size))
      ensures !ok ==> blocks == old(blocks) && used == old(used)
      ensures ok ==>
              used == old(used) - BlockSize(size)
                && forall a: nat :: IsFree(blocks, a) <==> IsFree(old(blocks), a) || p <= a < p + BlockSize(size)
    {
      hide IsList, Chained, OnGrid, IsFree, Given, Total, BlockSize;
      var n := BlockSize(size);
      ok := GiveBack(p, n);
      if ok {
        GivenList(old(blocks), p, n);
        NoMore(blocks, owned);
        used := used - n;
      }
    }

    /** Takes over `start..end`. A range with no whole block in it makes a free block of size 0, which is no
        list. */
    method Init(start: nat, end: nat)
      requires 0 < start && AlignUp(start, BLOCK_ALIGN) <= end / BLOCK_ALIGN * BLOCK_ALIGN
      modifies this
      ensures var lo, hi := AlignUp(start, BLOCK_ALIGN), end / BLOCK_ALIGN * BLOCK_ALIGN;
              && total == hi - lo && used == 0 && blocks == owned == [Block(lo, hi - lo)] && Chained(mem, head, blocks)
              && (Valid() <==> lo < hi)
    {
      hide OnGrid, AlignUp, Total;
      var lo, hi := AlignUp(start, BLOCK_ALIGN), end / BLOCK_ALIGN * BLOCK_ALIGN;
      RoundedGrid(start, end);
      head, total, used := NULL, hi - lo, 0;
      blocks := [];
      if lo < hi {
        var ok := GiveBack(lo, hi - lo);
        assert Before([], lo) == 0;
        assert blocks == [Block(lo, hi - lo)];
      } else {
        mem, head := mem[lo := Header(0, NULL)], lo;
      }
      blocks := [Block(lo, hi - lo)];
      owned := blocks;
      TwoTotal(blocks);
    }

    /** Once everything allocated is freed, in whatever order, the free list is again the list of the
        memory the heap was given. */
    lemma Restored()
      requires Valid() && used == 0
      ensures blocks == owned
    {
      AllFreed(blocks, owned);
    }

    /** Adds `start..end` to the heap, merging it with free memory it touches. */
    method Extend(start: nat, end: nat)
      requires Valid() && 0 < start && NoneFree(owned, AlignUp(start, BLOCK_ALIGN), end)
      modifies this
      ensures Valid() && used == old(used)
      ensures var lo, hi := AlignUp(start, BLOCK_ALIGN), end / BLOCK_ALIGN * BLOCK_ALIGN;
              if hi <= lo then blocks == old(blocks) && owned == old(owned) && total == old(total)
              else
                && total == old(total) + (hi - lo) && owned == Given(old(owned), lo, hi - lo)
                && forall a: nat :: IsFree(blocks, a) <==> IsFree(old(blocks), a) || lo <= a < hi
    {
      hide IsList, Chained, OnGrid, IsFree, Given, Total, AlignUp;
      var lo, hi := AlignUp(start, BLOCK_ALIGN), end / BLOCK_ALIGN * BLOCK_ALIGN;
      if hi > lo {
        RoundedGrid(start, end);
        total := total + (hi - lo);
        GivenList(owned, lo, hi - lo);
        var ok := GiveBack(lo, hi - lo);
        GivenList(old(blocks), lo, hi - lo);
        owned := Given(owned, lo, hi - lo);
      }
    }
  }

  lemma RoundedGrid(start: nat, end: nat)
    requires 0 < start
    ensures var lo, hi := AlignUp(start, BLOCK_ALIGN), end / BLOCK_ALIGN * BLOCK_ALIGN;
            hi <= end && (lo < hi ==> Block(lo, hi - lo).Aligned())
  {
  }

  /** A list of as many bytes as one it lies within is that list. */
  lemma AllFreed(blocks: seq<Block>, owned: seq<Block>)
    requires IsList(blocks) && IsList(owned) && (forall a: nat :: IsFree(blocks, a) ==> IsFree(owned, a))
             && Total(blocks) == Total(owned)
    ensures blocks == owned
  {
    hide IsFree, FreeSet, IsList;
    FreeSetSize(blocks);
    FreeSetSize(owned);
    forall x | x in FreeSet(blocks) ensures x in FreeSet(owned) {
      FreeSetHas(blocks, x);
      FreeSetHas(owned, x);
    }
    SubsetSize(FreeSet(owned) - FreeSet(blocks), FreeSet(owned));
    assert FreeSet(owned) == FreeSet(blocks) + (FreeSet(owned) - FreeSet(blocks));
    assert |FreeSet(owned) - FreeSet(blocks)| == 0;
    forall x: nat ensures IsFree(blocks, x) <==> IsFree(owned, x) {
      FreeSetHas(blocks, x);
      FreeSetHas(owned, x);
    }
    OnlyList(blocks, owned);
  }

  lemma BeforeEnd(blocks: seq<Block>, i: nat, next: nat)
    requires i <= |blocks| && next == HeadOf(blocks, i) && next != NULL
    ensures i < |blocks|
  {
  }

  lemma BeforeIs(blocks: seq<Block>, start: nat, i: nat)
    requires IsList(blocks) && i <= |blocks| && (forall k :: 0 <= k < i ==> blocks[k].start < start)
    requires HeadOf(blocks, i) == NULL || start <= HeadOf(blocks, i)
    ensures Before(blocks, start) == i
  {
  }

  /** Memory and head once `start..start + size` is merged in before block `i`, as freeing writes them. */
  function GiveOut(mem: map<nat, Header>, head: nat, blocks: seq<Block>, i: nat, start: nat,
                   size: nat): (map<nat, Header>, nat)
    requires i <= |blocks| && (i > 0 ==> blocks[i - 1].start in mem)
  {
    var right := i < |blocks| && start + size == blocks[i].start;
    var merged := if right then size + blocks[i].size else size;
    var rest := HeadOf(blocks, if right then i + 1 else i);
    if i > 0 && blocks[i - 1].End() == start then
        (mem[blocks[i - 1].start := Header(blocks[i - 1].size + merged, rest)], head)
    else
      var mem1 := mem[start := Header(merged, rest)];
      if i == 0 then (mem1, start) else (mem1[blocks[i - 1].start := mem1[blocks[i - 1].start].(next := start)], head)
  }

  lemma GivenChained(mem: map<nat, Header>, head: nat, blocks: seq<Block>, i: nat, start: nat, size: nat)
    requires IsList(blocks) && Chained(mem, head, blocks) && i == Before(blocks, start) && Apart(blocks, i, start, size)
             && 0 < size
    requires i > 0 ==> blocks[i - 1].start in mem
    ensures var after := GiveOut(mem, head, blocks, i, start, size);
            Chained(after.0, after.1, Given(blocks, start, size))
  {
    hide OnGrid, IsList, Before, Spliced;
    var after, g := GiveOut(mem, head, blocks, i, start, size), Given(blocks, start, size);
    var m := Merged(blocks, i, start, size);
    GivenAt(blocks, i, start, size, 0);
    forall k | 0 <= k < |g| ensures Links(after.0, g, k) {
      if k < m.0 {
        GivenBefore(mem, head, blocks, i, start, size, k);
      } else if k == m.0 {
        GivenMerged(mem, head, blocks, i, start, size);
      } else {
        GivenAfter(mem, head, blocks, i, start, size, k - m.0 - 1 + m.1);
      }
    }
  }

  /** The blocks of the list with a range given back. */
  lemma GivenAt(blocks: seq<Block>, i: nat, start: nat, size: nat, k: nat)
    requires i <= |blocks|
    ensures var m := Merged(blocks, i, start, size); var g := Spliced(blocks, m.0, m.1, [m.2]);
            && |g| == |blocks| - (m.1 - m.0) + 1
            && (k < m.0 ==> g[k] == blocks[k])
            && g[m.0] == m.2
            && (m.1 <= k < |blocks| ==> g[k - m.1 + m.0 + 1] == blocks[k])
            && (m.1 <= k <= |blocks| ==> HeadOf(g, k - m.1 + m.0 + 1) == HeadOf(blocks, k))
  {
  }

  lemma GivenBefore(mem: map<nat, Header>, head: nat, blocks: seq<Block>, i: nat, start: nat, size: nat, k: nat)
    requires IsList(blocks) && Chained(mem, head, blocks) && i <= |blocks| && Apart(blocks, i, start, size)
             && (i > 0 ==> blocks[i - 1].start in mem)
    requires k < Merged(blocks, i, start, size).0
    ensures var m := Merged(blocks, i, start, size);
            Links(GiveOut(mem, head, blocks, i, start, size).0, Spliced(blocks, m.0, m.1, [m.2]), k)
  {
    hide OnGrid, IsList, Spliced;
    assert Links(mem, blocks, k);
    GivenAt(blocks, i, start, size, k);
    GivenAt(blocks, i, start, size, k + 1);
    Ordered(blocks, k, i - 1);
  }

  lemma Ordered(blocks: seq<Block>, k: nat, j: nat)
    requires IsList(blocks) && k <= j < |blocks|
    ensures k < j ==> blocks[k].End() < blocks[j].start
    ensures blocks[k].start < blocks[k].End() && blocks[j].start < blocks[j].End()
  {
  }

  lemma GivenMerged(mem: map<nat, Header>, head: nat, blocks: seq<Block>, i: nat, start: nat, size: nat)
    requires IsList(blocks) && Chained(mem, head, blocks) && i <= |blocks| && Apart(blocks, i, start, size)
             && (i > 0 ==> blocks[i - 1].start in mem)
    ensures var m := Merged(blocks, i, start, size);
            Links(GiveOut(mem, head, blocks, i, start, size).0, Spliced(blocks, m.0, m.1, [m.2]), m.0)
  {
  }

  lemma GivenAfter(mem: map<nat, Header>, head: nat, blocks: seq<Block>, i: nat, start: nat, size: nat, k: nat)
    requires IsList(blocks) && Chained(mem, head, blocks) && i <= |blocks| && Apart(blocks, i, start, size)
             && (i > 0 ==> blocks[i - 1].start in mem)
    requires 0 < size && Merged(blocks, i, start, size).1 <= k < |blocks|
    ensures var m := Merged(blocks, i, start, size);
            Links(GiveOut(mem, head, blocks, i, start, size).0, Spliced(blocks, m.0, m.1, [m.2]), k - m.1 + m.0 + 1)
  {
    hide OnGrid, IsList, Spliced;
    var m := Merged(blocks, i, start, size);
    assert Links(mem, blocks, k);
    GivenAt(blocks, i, start, size, k);
    GivenAt(blocks, i, start, size, k + 1);
    Ordered(blocks, i, k);
    if i > 0 {
      Ordered(blocks, i - 1, k);
    }
  }

  lemma AlignIsGrid(align: nat)
    requires IsPowerOfTwo(align)
    ensures 0 < AlignOf(align) && OnGrid(AlignOf(align))
  {
    if align >= BLOCK_ALIGN {
      BigPowers(align);
    }
  }

  /** Where the link before block `i` leads. */
  lemma LinkAt(mem: map<nat, Header>, head: nat, blocks: seq<Block>, i: nat)
    requires IsList(blocks) && Chained(mem, head, blocks) && i <= |blocks|
    ensures i > 0 ==>
            blocks[i - 1].start in mem && blocks[i - 1].start != NULL
              && mem[blocks[i - 1].start].next == HeadOf(blocks, i)
    ensures i == 0 ==> head == HeadOf(blocks, 0)
    ensures i < |blocks| ==> blocks[i].start != NULL && Links(mem, blocks, i) && blocks[i].Aligned()
  {
    if i > 0 {
      assert Links(mem, blocks, i - 1);
    }
  }

  lemma NoneFits(blocks: seq<Block>, n: nat, a: nat)
    requires IsList(blocks) && 0 < n && 0 < a
    requires forall k :: 0 <= k < |blocks| ==> NoRoom(blocks[k], n, a)
    ensures forall s: nat :: !Fits(blocks, s, n, a)
  {
    hide IsList, IsFree;
    forall s: nat | Fits(blocks, s, n, a) ensures false {
      var k := WithinBlock(blocks, s, s + n);
    }
  }

  lemma StartIsGrid(blocks: seq<Block>, i: nat, start: nat, a: nat, n: nat)
    requires i < |blocks| && blocks[i].Aligned() && OnGrid(a) && 0 < a && IsAligned(start, a) && OnGrid(n)
    ensures OnGrid(start) && OnGrid(start + n)
  {
    assert start == start / a * a && a == a / BLOCK_ALIGN * BLOCK_ALIGN;
    GridTimes(start / a, a / BLOCK_ALIGN);
    GridSum(start, n);
  }

  lemma GridTimes(p: nat, q: nat)
    ensures OnGrid(p * (q * BLOCK_ALIGN))
  {
    assert p * (q * BLOCK_ALIGN) == BLOCK_ALIGN * (p * q);
    ModUnique(BLOCK_ALIGN, p * q, 0);
  }

  /** The first block an allocation fits in gives the lowest address. */
  lemma FirstFit(blocks: seq<Block>, i: nat, start: nat, n: nat, a: nat)
    requires IsList(blocks) && i < |blocks| && 0 < n && 0 < a && start == AlignUp(blocks[i].start, a)
             && start + n <= blocks[i].End()
    requires forall k :: 0 <= k < i ==> NoRoom(blocks[k], n, a)
    ensures Fits(blocks, start, n, a) && forall s :: 0 <= s < start ==> !Fits(blocks, s, n, a)
  {
    hide AlignUp, OnGrid;
    forall b | start <= b < start + n ensures IsFree(blocks, b) {
      assert blocks[i].Covers(b);
    }
    forall s | 0 <= s < start && Fits(blocks, s, n, a) ensures false {
      var k := WithinBlock(blocks, s, s + n);
      if k == i {
        AlignUpLeast(blocks[i].start, a, s);
      }
    }
  }

  /** Memory and head once `lo..hi` is taken out of block `i`, as the allocator writes them. */
  function TakeOut(mem: map<nat, Header>, head: nat, blocks: seq<Block>, i: nat, lo: nat, hi: nat): (map<nat, Header>,
                   nat)
    requires i < |blocks| && (i > 0 ==> blocks[i - 1].start in mem)
  {
    var b := blocks[i];
    var mem1 := if hi < b.End() then mem[hi := Header(b.End() - hi, HeadOf(blocks, i + 1))] else mem;
    var rest := if hi < b.End() then hi else HeadOf(blocks, i + 1);
    if lo > b.start then (mem1[b.start := Header(lo - b.start, rest)], head)
    else if i == 0 then (mem1, rest)
    else (mem1[blocks[i - 1].start := mem1[blocks[i - 1].start].(next := rest)], head)
  }

  lemma TakenChained(mem: map<nat, Header>, head: nat, blocks: seq<Block>, i: nat, lo: nat, hi: nat)
    requires IsList(blocks) && Chained(mem, head, blocks) && i < |blocks| && (i > 0 ==> blocks[i - 1].start in mem)
    requires blocks[i].start <= lo < hi <= blocks[i].End()
    ensures var after := TakeOut(mem, head, blocks, i, lo, hi); Chained(after.0, after.1, Taken(blocks, i, lo, hi))
  {
    hide OnGrid, IsList;
    var after, t := TakeOut(mem, head, blocks, i, lo, hi), Taken(blocks, i, lo, hi);
    var n := |Carved(blocks[i], lo, hi)|;
    forall k | 0 <= k < |t| ensures Links(after.0, t, k) {
      if k < i {
        TakenBefore(mem, head, blocks, i, lo, hi, k);
      } else if k < i + n {
        TakenParts(mem, head, blocks, i, lo, hi, k - i);
      } else {
        TakenAfter(mem, head, blocks, i, lo, hi, k - n + 1);
      }
    }
    TakenHead(mem, head, blocks, i, lo, hi);
  }

  /** The blocks of the list with a range taken out. */
  lemma TakenAt(blocks: seq<Block>, i: nat, lo: nat, hi: nat, k: nat)
    requires i < |blocks| && blocks[i].start <= lo < hi <= blocks[i].End()
    ensures var t, c := Taken(blocks, i, lo, hi), Carved(blocks[i], lo, hi);
            && |t| == |blocks| - 1 + |c|
            && (k < i ==> t[k] == blocks[k])
            && (k < |c| ==> t[i + k] == c[k])
            && (i < k < |blocks| ==> t[k - 1 + |c|] == blocks[k])
            && HeadOf(t, i)
               == (if blocks[i].start < lo then blocks[i].start else if hi < blocks[i].End() then hi
                   else HeadOf(blocks, i + 1))
            && (i < k <= |blocks| ==> HeadOf(t, k - 1 + |c|) == HeadOf(blocks, k))
  {
  }

  lemma Starts(blocks: seq<Block>, k: nat, j: nat)
    requires IsList(blocks) && k < |blocks| && j < |blocks| && k != j
    ensures blocks[k].start != blocks[j].start && !(blocks[j].start <= blocks[k].start <= blocks[j].End())
  {
  }

  lemma TakenBefore(mem: map<nat, Header>, head: nat, blocks: seq<Block>, i: nat, lo: nat, hi: nat, k: nat)
    requires IsList(blocks) && Chained(mem, head, blocks) && i < |blocks| && (i > 0 ==> blocks[i - 1].start in mem)
    requires blocks[i].start <= lo < hi <= blocks[i].End() && k < i
    ensures Links(TakeOut(mem, head, blocks, i, lo, hi).0, Taken(blocks, i, lo, hi), k)
  {
    hide OnGrid, IsList, Taken, Carved;
    assert Links(mem, blocks, k);
    TakenAt(blocks, i, lo, hi, k);
    Starts(blocks, k, i);
    if k < i - 1 {
      TakenAt(blocks, i, lo, hi, k + 1);
      Starts(blocks, k, i - 1);
    }
  }

  lemma TakenParts(mem: map<nat, Header>, head: nat, blocks: seq<Block>, i: nat, lo: nat, hi: nat, k: nat)
    requires IsList(blocks) && Chained(mem, head, blocks) && i < |blocks| && (i > 0 ==> blocks[i - 1].start in mem)
    requires blocks[i].start <= lo < hi <= blocks[i].End() && k < |Carved(blocks[i], lo, hi)|
    ensures Links(TakeOut(mem, head, blocks, i, lo, hi).0, Taken(blocks, i, lo, hi), i + k)
  {
    hide OnGrid, IsList, Taken;
    TakenAt(blocks, i, lo, hi, k);
    TakenAt(blocks, i, lo, hi, k + 1);
    TakenAt(blocks, i, lo, hi, i + 1);
    if i > 0 {
      Starts(blocks, i - 1, i);
    }
  }

  lemma TakenAfter(mem: map<nat, Header>, head: nat, blocks: seq<Block>, i: nat, lo: nat, hi: nat, k: nat)
    requires IsList(blocks) && Chained(mem, head, blocks) && i < |blocks| && (i > 0 ==> blocks[i - 1].start in mem)
    requires blocks[i].start <= lo < hi <= blocks[i].End() && i < k < |blocks|
    ensures Links(TakeOut(mem, head, blocks, i, lo, hi).0, Taken(blocks, i, lo, hi),
                  k - 1 + |Carved(blocks[i], lo, hi)|)
  {
    hide OnGrid, IsList, Taken, Carved;
    assert Links(mem, blocks, k);
    TakenAt(blocks, i, lo, hi, k);
    TakenAt(blocks, i, lo, hi, k + 1);
    Starts(blocks, k, i);
    if i > 0 {
      Starts(blocks, k, i - 1);
    }
  }

  lemma TakenHead(mem: map<nat, Header>, head: nat, blocks: seq<Block>, i: nat, lo: nat, hi: nat)
    requires Chained(mem, head, blocks) && i < |blocks| && (i > 0 ==> blocks[i - 1].start in mem)
    requires blocks[i].start <= lo < hi <= blocks[i].End()
    ensures TakeOut(mem, head, blocks, i, lo, hi).1 == HeadOf(Taken(blocks, i, lo, hi), 0)
  {
  }
}
