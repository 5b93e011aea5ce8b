/** Physical page frames: which pages of RAM are free, one bit each. */
module PageFrames {
  import opened Bytes
  import opened Arithmetic
  import opened Ranges

  const PAGE_SIZE: nat := 4096

  datatype FrameError = NotAFrame | NotAllocated

  /** 64 frames' bits. */
  type Word = w: seq<bool> | |w| == 64 witness seq(64, i => false)

  function Bit(used: seq<Word>, n: nat): bool
    requires n < 64 * |used|
  {
    used[n / 64][n % 64]
  }

  function FirstClear(w: Word, from: nat): (i: nat)
    requires from <= 64
    ensures from <= i <= 64 && (i < 64 ==> !w[i]) && forall j :: from <= j < i ==> w[j]
    decreases 64 - from
  {
    if from == 64 || !w[from] then from else FirstClear(w, from + 1)
  }

  class Frames {
    /** The physical address of frame 0, and how many there are. */
    const base: nat
    const count: nat
    /** Bit `n` is set while frame `n` is allocated. */
    var used: seq<Word>
    var free: nat
    /** Where the next search starts, in words. */
    var next: nat

    ghost predicate Valid()
      reads this
    {
      && count <= 64 * |used| < count + 64 && base % PAGE_SIZE == 0 && (next < |used| || next == 0)
      && (forall n :: count <= n < 64 * |used| ==> Bit(used, n))
      && free == |Available(used, count)|
    }

    /** `frame` is the address of one of the frames. */
    predicate IsFrame(frame: nat) { Frame(base, count, frame) }

    /** ... that has been handed out. */
    predicate IsTaken(frame: nat)
      reads this
      requires count <= 64 * |used|
    {
      Taken(base, count, used, frame)
    }

    /** Manages the whole pages in `start..end`, all free. */
    constructor (start: nat, end: nat)
      ensures Valid() && free == count && forall f :: !IsTaken(f)
      ensures start <= base < start + PAGE_SIZE
              && base + count * PAGE_SIZE <= (if end < base then base else end) < base + (count + 1) * PAGE_SIZE
    {
      var first := (start + PAGE_SIZE - 1) / PAGE_SIZE * PAGE_SIZE;
      var pages := (if end < first then 0 else end - first) / PAGE_SIZE;
      base, count := first, pages;
      used := seq((pages + 63) / 64, w requires 0 <= w => FreshWord(pages, w));
      free, next := pages, 0;
      new;
      assert forall n :: 0 <= n < 64 * |used| ==> Bit(used, n) == (n >= count);
      assert Available(used, count) == Range(0, count);
    }

    /** A free frame's address, now allocated. */
    method Allocate() returns (frame: Option<nat>)
      requires Valid()
      modifies this
      ensures Valid() && (frame.None? <==> old(free) == 0)
      ensures frame.None? ==> unchanged(this)
      ensures frame.Some? ==>
                && frame.value % PAGE_SIZE == 0 && IsFrame(frame.value) && !old(IsTaken(frame.value))
                && free == old(free) - 1 && forall f :: IsTaken(f) <==> old(IsTaken(f)) || f == frame.value
    {
      hide FirstClear, Bit, Available, Taken, Frame;
      var words := |used|;
      var i := 0;
      while i < words
        invariant 0 <= i <= words == |used| && unchanged(this)
        invariant forall k :: 0 <= k < i ==> IsFull(used[Wrapped(next, k, words)])
      {
        var word := Wrapped(next, i, words);
        if !IsFull(used[word]) {
          var bit := FirstClear(used[word], 0);
          var n := word * 64 + bit;
          BitAt(used, word, bit);
          PutBit(used, word, bit, true);
          PutAvailable(used, count, word, bit, true);
          PutTaken(base, count, used, word, bit, true);
          used := used[word := used[word][bit := true]];
          free := free - 1;
          next := word;
          return Some(base + n * PAGE_SIZE);
        }
        i := i + 1;
      }
      AllFull(used, next, count);
      NoneAvailable(used, count);
      frame := None;
    }

    /** Makes an allocated frame free again. */
    method Free(frame: nat) returns (error: Option<FrameError>)
      requires Valid()
      modifies this
      ensures Valid()
      ensures error == if !IsFrame(frame) then Some(NotAFrame) else if !old(IsTaken(frame)) then Some(NotAllocated)
              else None
      ensures error.Some? ==> unchanged(this)
      ensures error.None? ==> free == old(free) + 1 && forall f :: IsTaken(f) <==> old(IsTaken(f)) && f != frame
    {
      hide Bit, Available, Taken;
      if frame < base {
        return Some(NotAFrame);
      }
      var offset := frame - base;
      var n := offset / PAGE_SIZE;
      if offset % PAGE_SIZE != 0 || n >= count {
        return Some(NotAFrame);
      }
      var word, bit := n / 64, n % 64;
      BitAt(used, word, bit);
      TakenIs(base, count, used, frame);
      if !used[word][bit] {
        return Some(NotAllocated);
      }
      PutBit(used, word, bit, false);
      PutAvailable(used, count, word, bit, false);
      PutTaken(base, count, used, word, bit, false);
      used := used[word := used[word][bit := false]];
      free := free + 1;
      return None;
    }
  }

  predicate IsFull(w: Word) { FirstClear(w, 0) == 64 }

  function Wrapped(next: nat, k: nat, words: nat): (w: nat)
    requires 0 < words
    ensures w < words
  {
    (next + k) % words
  }

  lemma AllFull(used: seq<Word>, next: nat, count: nat)
    requires (next < |used| || next == 0) && count <= 64 * |used|
             && forall k :: 0 <= k < |used| ==> IsFull(used[Wrapped(next, k, |used|)])
    ensures forall n :: 0 <= n < count ==> Bit(used, n)
  {
    forall n | 0 <= n < count ensures Bit(used, n) {
      var o := Reaches(next, |used|, n / 64);
      var k := if o == |used| then 0 else o;
      assert Wrapped(next, k, |used|) == n / 64 by {
        if o == |used| {
          WrapsBack(next, |used|);
        }
      }
      assert IsFull(used[Wrapped(next, k, |used|)]);
    }
  }

  lemma WrapsBack(next: nat, n: nat)
    requires 0 < n
    ensures (next + n) % n == next % n
  {
    assert next + n == n * (next / n + 1) + next % n;
    ModUnique(n, next / n + 1, next % n);
  }

  function FreshWord(count: nat, w: nat): Word { seq(64, i requires 0 <= i => w * 64 + i >= count) }

  lemma BitAt(used: seq<Word>, word: nat, bit: nat)
    requires word < |used| && bit < 64
    ensures Bit(used, word * 64 + bit) == used[word][bit]
  {
  }

  predicate Frame(base: nat, count: nat, frame: nat) {
    base <= frame && (frame - base) % PAGE_SIZE == 0 && (frame - base) / PAGE_SIZE < count
  }

  predicate Taken(base: nat, count: nat, used: seq<Word>, frame: nat)
    requires count <= 64 * |used|
  {
    Frame(base, count, frame) && Bit(used, (frame - base) / PAGE_SIZE)
  }

  function Available(used: seq<Word>, count: nat): set<nat>
    requires count <= 64 * |used|
  {
    set n | n in Range(0, count) && !Bit(used, n)
  }

  lemma NoneAvailable(used: seq<Word>, count: nat)
    requires count <= 64 * |used| && forall n :: 0 <= n < count ==> Bit(used, n)
    ensures Available(used, count) == {}
  {
  }

  lemma TakenIs(base: nat, count: nat, used: seq<Word>, frame: nat)
    requires count <= 64 * |used| && Frame(base, count, frame)
    ensures Taken(base, count, used, frame) == Bit(used, (frame - base) / PAGE_SIZE)
  {
  }

  lemma PutAvailable(used: seq<Word>, count: nat, word: nat, bit: nat, value: bool)
    requires word < |used| && bit < 64 && word * 64 + bit < count <= 64 * |used| && Bit(used, word * 64 + bit) != value
    ensures var used', n := used[word := used[word][bit := value]], word * 64 + bit;
            && (value ==> n in Available(used, count) && |Available(used', count)| == |Available(used, count)| - 1)
            && (!value ==> |Available(used', count)| == |Available(used, count)| + 1)
  {
    hide Bit, Range;
    var used', n := used[word := used[word][bit := value]], word * 64 + bit;
    PutBit(used, word, bit, value);
    assert n in Range(0, count);
    if value {
      assert Available(used', count) == Available(used, count) - {n};
    } else {
      assert Available(used', count) == Available(used, count) + {n};
    }
  }

  lemma PutTaken(base: nat, count: nat, used: seq<Word>, word: nat, bit: nat, value: bool)
    requires word < |used| && bit < 64 && word * 64 + bit < count <= 64 * |used|
    ensures var used', frame := used[word := used[word][bit := value]], base + (word * 64 + bit) * PAGE_SIZE;
            && Frame(base, count, frame) && Taken(base, count, used, frame) == Bit(used, word * 64 + bit)
            && (base % PAGE_SIZE == 0 ==> frame % PAGE_SIZE == 0)
            && forall f :: Taken(base, count, used', f) <==> if f == frame then value else Taken(base, count, used, f)
  {
  }

  /** Setting or clearing a bit leaves the others. */
  lemma PutBit(used: seq<Word>, word: nat, bit: nat, value: bool)
    requires word < |used| && bit < 64
    ensures var used' := used[word := used[word][bit := value]];
            forall n :: 0 <= n < 64 * |used| ==> Bit(used', n) == if n == word * 64 + bit then value else Bit(used, n)
  {
  }
}
