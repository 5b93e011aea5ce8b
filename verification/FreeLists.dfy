/** Lists of free blocks: sorted, aligned and coalesced. Such a list is the only one for the bytes it
    covers. */
module FreeLists {
  import opened Bytes
  import opened Ranges

  /** Every block is a multiple of this in size and aligned to it. */
  const BLOCK_ALIGN: nat := 16

  datatype Block = Block(start: nat, size: nat) {
    function End(): nat { start + size }
    predicate Aligned() { 0 < start && 0 < size && OnGrid(start) && OnGrid(size) }
    predicate Covers(a: nat) { start <= a < End() }
  }

  predicate OnGrid(n: nat) { n % BLOCK_ALIGN == 0 }

  lemma GridSum(a: nat, b: nat)
    requires OnGrid(a) && OnGrid(b)
    ensures OnGrid(a + b) && (b <= a ==> OnGrid(a - b))
  {
  }

  /** Sorted by address, with a gap between any two blocks. */
  predicate IsList(blocks: seq<Block>) {
    && (forall i :: 0 <= i < |blocks| ==> blocks[i].Aligned())
    && (forall i, j :: 0 <= i < j < |blocks| ==> blocks[i].End() < blocks[j].start)
  }

  predicate IsFree(blocks: seq<Block>, a: nat) {
    exists i :: 0 <= i < |blocks| && blocks[i].Covers(a)
  }

  predicate AllFree(blocks: seq<Block>, lo: nat, hi: nat) {
    forall a :: lo <= a < hi ==> IsFree(blocks, a)
  }

  predicate NoneFree(blocks: seq<Block>, lo: nat, hi: nat) {
    forall a :: lo <= a < hi ==> !IsFree(blocks, a)
  }

  function Total(blocks: seq<Block>): nat {
    if blocks == [] then 0 else Total(blocks[..|blocks| - 1]) + blocks[|blocks| - 1].size
  }

  /** A free range lies within one block. */
  lemma WithinBlock(blocks: seq<Block>, lo: nat, hi: nat) returns (i: nat)
    requires IsList(blocks) && lo < hi && AllFree(blocks, lo, hi)
    ensures i < |blocks| && blocks[i].start <= lo && hi <= blocks[i].End()
  {
    assert IsFree(blocks, lo);
    i :| 0 <= i < |blocks| && blocks[i].Covers(lo);
    assert hi > blocks[i].End() ==> IsFree(blocks, blocks[i].End());
  }

  /* Two lists of the same bytes are the same list. */

  ghost predicate SameBytes(a: seq<Block>, b: seq<Block>) {
    forall x: nat :: IsFree(a, x) <==> IsFree(b, x)
  }

  lemma StartsNoEarlier(a: seq<Block>, b: seq<Block>)
    requires IsList(a) && IsList(b) && SameBytes(a, b) && a != []
    ensures b != [] && b[0].start <= a[0].start
  {
    assert a[0].Covers(a[0].start);
    assert IsFree(a, a[0].start);
    var i :| 0 <= i < |b| && b[i].Covers(a[0].start);
    assert i == 0 || b[0].End() < b[i].start;
  }

  lemma EndsNoLater(a: seq<Block>, b: seq<Block>)
    requires IsList(a) && IsList(b) && SameBytes(a, b) && a != [] && b != [] && a[0].start == b[0].start
    ensures a[0].End() <= b[0].End()
  {
    var end := b[0].End();
    assert a[0].Covers(end) ==> IsFree(a, end);
    assert !IsFree(b, end);
  }

  lemma RestBytes(a: seq<Block>, x: nat)
    requires IsList(a) && a != []
    ensures IsFree(a[1..], x) <==> IsFree(a, x) && !a[0].Covers(x)
  {
  }

  lemma {:induction false} OnlyList(a: seq<Block>, b: seq<Block>)
    requires IsList(a) && IsList(b) && SameBytes(a, b)
    ensures a == b
    decreases |a|
  {
    if a != [] || b != [] {
      if a != [] { StartsNoEarlier(a, b); }
      if b != [] { StartsNoEarlier(b, a); }
      EndsNoLater(a, b);
      EndsNoLater(b, a);
      forall x: nat ensures IsFree(a[1..], x) <==> IsFree(b[1..], x) {
        RestBytes(a, x);
        RestBytes(b, x);
      }
      OnlyList(a[1..], b[1..]);
      assert a == [a[0]] + a[1..] && b == [b[0]] + b[1..];
    }
  }

  /* Replacing blocks of a list. */

  function Spliced(blocks: seq<Block>, i: nat, j: nat, parts: seq<Block>): seq<Block>
    requires i <= j <= |blocks|
  {
    blocks[..i] + parts + blocks[j..]
  }

  lemma SplicedFree(blocks: seq<Block>, i: nat, j: nat, parts: seq<Block>, a: nat)
    requires i <= j <= |blocks|
    ensures IsFree(Spliced(blocks, i, j, parts), a)
            <==> IsFree(blocks[..i], a) || IsFree(parts, a) || IsFree(blocks[j..], a)
  {
    var s := Spliced(blocks, i, j, parts);
    if IsFree(s, a) {
      var k :| 0 <= k < |s| && s[k].Covers(a);
      if k < i {
        assert blocks[..i][k].Covers(a);
      } else if k < i + |parts| {
        assert parts[k - i].Covers(a);
      } else {
        assert blocks[j..][k - i - |parts|].Covers(a);
      }
    }
    if IsFree(blocks[..i], a) {
      var k :| 0 <= k < i && blocks[..i][k].Covers(a);
      assert s[k].Covers(a);
    }
    if IsFree(parts, a) {
      var k :| 0 <= k < |parts| && parts[k].Covers(a);
      assert s[i + k].Covers(a);
    }
    if IsFree(blocks[j..], a) {
      var k :| 0 <= k < |blocks[j..]| && blocks[j..][k].Covers(a);
      assert s[i + |parts| + k].Covers(a);
    }
  }

  /** Parts that fit between the blocks around them make a list. */
  lemma SplicedList(blocks: seq<Block>, i: nat, j: nat, parts: seq<Block>)
    requires IsList(blocks) && IsList(parts) && i <= j <= |blocks|
    requires i > 0 ==> forall k :: 0 <= k < |parts| ==> blocks[i - 1].End() < parts[k].start
    requires j < |blocks| ==> forall k :: 0 <= k < |parts| ==> parts[k].End() < blocks[j].start
    ensures IsList(Spliced(blocks, i, j, parts))
  {
    hide OnGrid;
    var s, n := Spliced(blocks, i, j, parts), |parts|;
    forall k | 0 <= k < |s|
      ensures s[k].Aligned() && s[k] == if k < i then blocks[k] else if k < i + n then parts[k - i]
              else blocks[k - i - n + j]
    {
    }
    forall k, m | 0 <= k < m < |s| ensures s[k].End() < s[m].start {
      if k < i <= m < i + n {
        assert k == i - 1 || blocks[k].End() < blocks[i - 1].start;
        assert blocks[i - 1].End() < parts[m - i].start;
      } else if i <= k < i + n <= m {
        assert m - i - n + j == j || blocks[j].End() < blocks[m - i - n + j].start;
        assert parts[k - i].End() < blocks[j].start;
      }
    }
  }

  lemma {:induction false} TotalAppend(a: seq<Block>, b: seq<Block>)
    ensures Total(a + b) == Total(a) + Total(b)
  {
    if b == [] {
      assert a + b == a;
    } else {
      TotalAppend(a, b[..|b| - 1]);
      assert (a + b)[..|a + b| - 1] == a + b[..|b| - 1];
    }
  }

  lemma SplicedTotal(blocks: seq<Block>, i: nat, j: nat, parts: seq<Block>)
    requires i <= j <= |blocks|
    ensures Total(Spliced(blocks, i, j, parts)) == Total(blocks) - Total(blocks[i..j]) + Total(parts)
  {
    hide Total;
    assert blocks == blocks[..i] + blocks[i..j] + blocks[j..];
    TotalAppend(blocks[..i] + blocks[i..j], blocks[j..]);
    TotalAppend(blocks[..i], blocks[i..j]);
    TotalAppend(blocks[..i] + parts, blocks[j..]);
    TotalAppend(blocks[..i], parts);
  }

  lemma TwoTotal(parts: seq<Block>)
    requires |parts| <= 2
    ensures Total(parts) == (if |parts| > 0 then parts[0].size else 0) + (if |parts| > 1 then parts[1].size else 0)
  {
  }

  /* Taking a range out of a block. */

  /** What is left of a block once `lo..hi` is taken out of it. */
  function Carved(b: Block, lo: nat, hi: nat): (parts: seq<Block>)
    requires b.start <= lo < hi <= b.End()
    ensures |parts| <= 2
  {
    (if b.start < lo then [Block(b.start, lo - b.start)] else [])
        + (if hi < b.End() then [Block(hi, b.End() - hi)] else [])
  }

  function Taken(blocks: seq<Block>, i: nat, lo: nat, hi: nat): seq<Block>
    requires i < |blocks| && blocks[i].start <= lo < hi <= blocks[i].End()
  {
    Spliced(blocks, i, i + 1, Carved(blocks[i], lo, hi))
  }

  lemma CarvedFree(b: Block, lo: nat, hi: nat, a: nat)
    requires b.start <= lo < hi <= b.End()
    ensures IsFree(Carved(b, lo, hi), a) <==> b.Covers(a) && !(lo <= a < hi)
  {
    var c := Carved(b, lo, hi);
    if b.Covers(a) && a < lo {
      assert c[0].Covers(a);
    }
    if b.Covers(a) && hi <= a {
      assert c[|c| - 1].Covers(a);
    }
  }

  lemma SplitFree(blocks: seq<Block>, i: nat, a: nat)
    requires IsList(blocks) && i < |blocks|
    ensures IsFree(blocks, a) <==> IsFree(blocks[..i], a) || blocks[i].Covers(a) || IsFree(blocks[i + 1..], a)
    ensures IsFree(blocks[..i], a) || IsFree(blocks[i + 1..], a) ==> !blocks[i].Covers(a)
  {
  }

  /** Taking a range out leaves a list of the other bytes. */
  lemma TakenList(blocks: seq<Block>, i: nat, lo: nat, hi: nat)
    requires IsList(blocks) && i < |blocks| && blocks[i].start <= lo < hi <= blocks[i].End() && OnGrid(lo) && OnGrid(hi)
    ensures IsList(Taken(blocks, i, lo, hi)) && Total(Taken(blocks, i, lo, hi)) == Total(blocks) - (hi - lo)
    ensures forall a: nat :: IsFree(Taken(blocks, i, lo, hi), a) <==> IsFree(blocks, a) && !(lo <= a < hi)
  {
    hide IsFree, Spliced, Total, OnGrid, Carved;
    var parts := Carved(blocks[i], lo, hi);
    CarvedIsList(blocks[i], lo, hi);
    SplicedList(blocks, i, i + 1, parts);
    SplicedTotal(blocks, i, i + 1, parts);
    assert blocks[i..i + 1] == [blocks[i]];
    CarvedTotal(blocks[i], lo, hi);
    TwoTotal([blocks[i]]);
    forall a: nat ensures IsFree(Taken(blocks, i, lo, hi), a) <==> IsFree(blocks, a) && !(lo <= a < hi) {
      SplicedFree(blocks, i, i + 1, parts, a);
      CarvedFree(blocks[i], lo, hi, a);
      SplitFree(blocks, i, a);
    }
  }

  lemma CarvedTotal(b: Block, lo: nat, hi: nat)
    requires b.start <= lo < hi <= b.End()
    ensures Total(Carved(b, lo, hi)) == b.size - (hi - lo)
  {
    hide Total;
    TwoTotal(Carved(b, lo, hi));
  }

  lemma CarvedIsList(b: Block, lo: nat, hi: nat)
    requires b.Aligned() && b.start <= lo < hi <= b.End() && OnGrid(lo) && OnGrid(hi)
    ensures var c := Carved(b, lo, hi);
            IsList(c) && forall k :: 0 <= k < |c| ==> b.start <= c[k].start && c[k].End() <= b.End()
  {
    hide OnGrid;
    GridSum(lo, b.start);
    GridSum(b.start, b.size);
    GridSum(b.End(), hi);
  }

  /* Giving a range back. */

  /** Where a range starting at `start` goes in the list. */
  function Before(blocks: seq<Block>, start: nat): (i: nat)
    ensures i <= |blocks| && (forall j :: 0 <= j < i ==> blocks[j].start < start)
            && (i < |blocks| ==> start <= blocks[i].start)
  {
    if blocks == [] || start <= blocks[0].start then 0 else 1 + Before(blocks[1..], start)
  }

  /** What the blocks right before and after the range say of it: it meets neither. */
  predicate Apart(blocks: seq<Block>, i: nat, start: nat, size: nat)
    requires i <= |blocks|
  {
    (i > 0 ==> blocks[i - 1].End() <= start) && (i < |blocks| ==> start + size <= blocks[i].start)
  }

  /** ... which is so exactly if it meets nothing free. */
  lemma ApartIs(blocks: seq<Block>, start: nat, size: nat)
    requires IsList(blocks) && 0 < size
    ensures Apart(blocks, Before(blocks, start), start, size) <==> NoneFree(blocks, start, start + size)
  {
    hide Before;
    var i := Before(blocks, start);
    if Apart(blocks, i, start, size) {
      forall a, j | start <= a < start + size && 0 <= j < |blocks| ensures !blocks[j].Covers(a) {
        assert j + 1 < i ==> blocks[j].End() < blocks[i - 1].start;
        assert j > i ==> blocks[i].End() < blocks[j].start;
      }
    } else {
      var k, a := if i > 0 && blocks[i - 1].End() > start then i - 1
        else i, if i > 0 && blocks[i - 1].End() > start then start else blocks[i].start;
      assert blocks[k].Covers(a);
      assert IsFree(blocks, a);
    }
  }

  /** A range merged with the neighbours it touches. */
  function Merged(blocks: seq<Block>, i: nat, start: nat, size: nat): (r: (nat, nat, Block))
    requires i <= |blocks|
    ensures r.0 <= r.1 <= |blocks|
  {
    var left := i > 0 && blocks[i - 1].End() == start;
    var right := i < |blocks| && start + size == blocks[i].start;
    var lo := if left then blocks[i - 1].start else start;
    var hi := if right then blocks[i].End() else start + size;
    (if left then i - 1 else i, if right then i + 1 else i, Block(lo, hi - lo))
  }

  function Given(blocks: seq<Block>, start: nat, size: nat): seq<Block> {
    var m := Merged(blocks, Before(blocks, start), start, size);
    Spliced(blocks, m.0, m.1, [m.2])
  }

  /** Giving a range back makes a list of its bytes as well. */
  lemma GivenList(blocks: seq<Block>, start: nat, size: nat)
    requires IsList(blocks) && Block(start, size).Aligned() && NoneFree(blocks, start, start + size)
    ensures IsList(Given(blocks, start, size)) && Total(Given(blocks, start, size)) == Total(blocks) + size
    ensures forall a: nat :: IsFree(Given(blocks, start, size), a) <==> IsFree(blocks, a) || start <= a < start + size
  {
    hide IsFree, Spliced, Total, Before, Merged;
    ApartIs(blocks, start, size);
    var i := Before(blocks, start);
    var m := Merged(blocks, i, start, size);
    MergedFits(blocks, i, start, size);
    SplicedList(blocks, m.0, m.1, [m.2]);
    SplicedTotal(blocks, m.0, m.1, [m.2]);
    TwoTotal(blocks[m.0..m.1]);
    TwoTotal([m.2]);
    forall a: nat ensures IsFree(Given(blocks, start, size), a) <==> IsFree(blocks, a) || start <= a < start + size {
      GivenFree(blocks, i, start, size, a);
    }
  }

  lemma MergedFits(blocks: seq<Block>, i: nat, start: nat, size: nat)
    requires IsList(blocks) && Block(start, size).Aligned() && i <= |blocks| && Apart(blocks, i, start, size)
    ensures var m := Merged(blocks, i, start, size);
            && m.2.Aligned() && m.1 - m.0 <= 2
            && (m.0 > 0 ==> blocks[m.0 - 1].End() < m.2.start) && (m.1 < |blocks| ==> m.2.End() < blocks[m.1].start)
            && m.2.size == size + (if m.1 > m.0 then blocks[m.0].size else 0)
               + (if m.1 - m.0 == 2 then blocks[m.0 + 1].size else 0)
  {
    hide OnGrid, IsList;
    Neighbours(blocks, i);
    if i > 0 {
      GridSum(size, blocks[i - 1].size);
    }
    if i < |blocks| {
      GridSum(size, blocks[i].size);
    }
    if 0 < i < |blocks| {
      GridSum(size + blocks[i - 1].size, blocks[i].size);
    }
  }

  lemma Neighbours(blocks: seq<Block>, i: nat)
    requires IsList(blocks) && i <= |blocks|
    ensures i > 0 ==> blocks[i - 1].Aligned() && (i > 1 ==> blocks[i - 2].End() < blocks[i - 1].start)
    ensures i < |blocks| ==> blocks[i].Aligned() && (i + 1 < |blocks| ==> blocks[i].End() < blocks[i + 1].start)
    ensures 0 < i < |blocks| ==> blocks[i - 1].End() < blocks[i].start
  {
  }

  lemma GivenFree(blocks: seq<Block>, i: nat, start: nat, size: nat, a: nat)
    requires IsList(blocks) && i <= |blocks|
    ensures var m := Merged(blocks, i, start, size);
            IsFree(Spliced(blocks, m.0, m.1, [m.2]), a) <==> IsFree(blocks, a) || start <= a < start + size
  {
    hide IsFree, Spliced;
    var m := Merged(blocks, i, start, size);
    var gone := blocks[m.0..m.1];
    SplicedFree(blocks, m.0, m.1, [m.2], a);
    SplicedFree(blocks, m.0, m.1, gone, a);
    SplicedBack(blocks, m.0, m.1);
    FewFree([m.2], a);
    FewFree(gone, a);
  }

  lemma SplicedBack(blocks: seq<Block>, i: nat, j: nat)
    requires i <= j <= |blocks|
    ensures Spliced(blocks, i, j, blocks[i..j]) == blocks
  {
  }

  lemma FewFree(parts: seq<Block>, a: nat)
    requires |parts| <= 2
    ensures IsFree(parts, a) <==> (|parts| > 0 && parts[0].Covers(a)) || (|parts| > 1 && parts[1].Covers(a))
  {
  }

  /* Counting. */

  function FreeSet(blocks: seq<Block>): set<nat> {
    if blocks == [] then {}
      else FreeSet(blocks[..|blocks| - 1]) + Range(blocks[|blocks| - 1].start, blocks[|blocks| - 1].End())
  }

  lemma InRange(lo: nat, hi: nat, a: nat)
    requires lo <= hi
    ensures a in Range(lo, hi) <==> lo <= a < hi
  {
  }

  lemma {:induction false} FreeSetHas(blocks: seq<Block>, a: nat)
    ensures a in FreeSet(blocks) <==> IsFree(blocks, a)
  {
    hide Range, OnGrid;
    if blocks != [] {
      var n := |blocks| - 1;
      FreeSetHas(blocks[..n], a);
      InRange(blocks[n].start, blocks[n].End(), a);
      assert forall i :: 0 <= i < n ==> blocks[..n][i] == blocks[i];
      if IsFree(blocks[..n], a) {
        var i :| 0 <= i < n && blocks[..n][i].Covers(a);
        assert blocks[i].Covers(a);
      }
      if blocks[n].Covers(a) {
        assert IsFree(blocks, a);
      }
    }
  }

  lemma {:induction false} FreeSetSize(blocks: seq<Block>)
    requires IsList(blocks)
    ensures |FreeSet(blocks)| == Total(blocks)
  {
    hide Range, OnGrid;
    if blocks != [] {
      var n := |blocks| - 1;
      FreeSetSize(blocks[..n]);
      var last := Range(blocks[n].start, blocks[n].End());
      forall a | a in FreeSet(blocks[..n]) ensures a !in last {
        FreeSetHas(blocks[..n], a);
        InRange(blocks[n].start, blocks[n].End(), a);
      }
      assert |FreeSet(blocks[..n]) + last| == |FreeSet(blocks[..n])| + |last|;
    }
  }

  /** A list within another has no more bytes. */
  lemma NoMore(a: seq<Block>, b: seq<Block>)
    requires IsList(a) && IsList(b) && forall x: nat :: IsFree(a, x) ==> IsFree(b, x)
    ensures Total(a) <= Total(b)
  {
    hide IsFree, FreeSet;
    forall x | x in FreeSet(a) ensures x in FreeSet(b) {
      FreeSetHas(a, x);
      FreeSetHas(b, x);
    }
    FreeSetSize(a);
    FreeSetSize(b);
    SubsetSize(FreeSet(a), FreeSet(b));
  }
}
