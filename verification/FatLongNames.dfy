/** Storing long names: their pieces, and the 8.3 aliases they are stored with. */
module FatLongNames {
  import opened Bytes
  import opened FatNames

  /* Pieces. */

  /** How many pieces `n` is stored in. */
  function Pieces(n: Name): nat { (|n| + LFN_CHARS - 1) / LFN_CHARS }

  /** The units stored: a terminator if there is room for one, then padding. */
  function Padded(n: Name): (u: seq<Unit>)
    ensures |u| == Pieces(n) * LFN_CHARS
    ensures forall i :: 0 <= i < |n| ==> u[i] == n[i]
    ensures |n| < |u| ==> u[|n|] == 0
  {
    var ended := if |n| % LFN_CHARS != 0 then n + [0] else n;
    ended + Blank(Pieces(n) * LFN_CHARS - |ended|)
  }

  /** `s` with the first `k` of `units` written where a piece keeps them. */
  function PutUnits(s: Slot, units: seq<Unit>, k: nat): Slot
    requires |units| == LFN_CHARS && k <= LFN_CHARS
  {
    if k == 0 then s else Patch(PutUnits(s, units, k - 1), UnitOffset(k - 1), Le16(units[k - 1]))
  }

  /** A piece's slot before its units are written. */
  function PieceHead(seqNo: nat, last: bool, checksum: byte): Slot
    requires seqNo < 0x20
  {
    Zeros(DIR_ENTRY_SIZE)[0 := seqNo + if last then 0x40 else 0][11 := 0x0F][13 := checksum]
  }

  /** Piece `seqNo` (from 1) of the pieces of `n`. */
  function Piece(n: Name, checksum: byte, seqNo: nat): Slot
    requires 1 <= seqNo <= Pieces(n) < 0x20
  {
    PutUnits(PieceHead(seqNo, seqNo == Pieces(n), checksum), Padded(n)[(seqNo - 1) * LFN_CHARS..seqNo * LFN_CHARS],
             LFN_CHARS)
  }

  /** The pieces of `n` as they are stored: last first. */
  function LongSlots(n: Name, checksum: byte): (slots: seq<Slot>)
    requires Pieces(n) < 0x20
    ensures |slots| == Pieces(n)
  {
    seq(Pieces(n), j requires 0 <= j < Pieces(n) => Piece(n, checksum, Pieces(n) - j))
  }

  lemma {:induction false} PutUnitsReadsBack(s: Slot, units: seq<Unit>, k: nat, i: nat)
    requires |units| == LFN_CHARS && i < k <= LFN_CHARS
    ensures UnitAt(PutUnits(s, units, k), i) == units[i]
  {
    PatchU16(PutUnits(s, units, k - 1), UnitOffset(k - 1), units[k - 1], UnitOffset(i));
    if i < k - 1 {
      PutUnitsReadsBack(s, units, k - 1, i);
    }
  }

  lemma {:induction false} PutUnitsKeepsHead(s: Slot, units: seq<Unit>, k: nat)
    requires |units| == LFN_CHARS && k <= LFN_CHARS
    ensures var r := PutUnits(s, units, k); r[0] == s[0] && r[11] == s[11] && r[13] == s[13]
  {
    if k > 0 {
      PutUnitsKeepsHead(s, units, k - 1);
    }
  }

  /** A piece says which it is, and holds its share of the units. */
  lemma PieceHolds(n: Name, checksum: byte, seqNo: nat)
    requires 1 <= seqNo <= Pieces(n) < 0x20
    ensures var s := Piece(n, checksum, seqNo);
            && s[0] == seqNo + (if seqNo == Pieces(n) then 0x40 else 0) && s[13] == checksum
            && IsLong(s) && !IsEnd(s) && !IsDeleted(s) && (IsLast(s) <==> seqNo == Pieces(n))
            && SlotUnits(s) == Padded(n)[(seqNo - 1) * LFN_CHARS..seqNo * LFN_CHARS]
  {
    var head, units :=
      PieceHead(seqNo, seqNo == Pieces(n), checksum), Padded(n)[(seqNo - 1) * LFN_CHARS..seqNo * LFN_CHARS];
    PutUnitsKeepsHead(head, units, LFN_CHARS);
    forall i | 0 <= i < LFN_CHARS ensures SlotUnits(Piece(n, checksum, seqNo))[i] == units[i] {
      PutUnitsReadsBack(head, units, LFN_CHARS, i);
    }
  }

  /** The collector once it has taken the first `k` of `slots`, which start at `at`. */
  function Collect(c: Collector, slots: seq<Slot>, at: nat, k: nat): (r: Collector)
    requires c.Fits() && k <= |slots|
    ensures r.Fits()
  {
    if k == 0 then c else AddPiece(Collect(c, slots, at, k - 1), slots[k - 1], at + k - 1)
  }

  /** The collector while pieces 1 to `seqNo` of `n` are still to come. */
  function Filled(n: Name, checksum: byte, seqNo: nat, at: nat): (c: Collector)
    requires seqNo <= Pieces(n)
    ensures c.Fits()
  {
    Collector(FilledUnits(Padded(n), seqNo * LFN_CHARS), checksum, seqNo, at)
  }

  function FilledUnits(u: seq<Unit>, blank: nat): (r: seq<Unit>)
    requires blank <= |u|
    ensures |r| == |u|
  {
    Blank(blank) + u[blank..]
  }

  lemma FillUnits(u: seq<Unit>, from: nat, to: nat)
    requires from <= to <= |u|
    ensures Patch(FilledUnits(u, to), from, u[from..to]) == FilledUnits(u, from)
    ensures FilledUnits(u, |u|) == Blank(|u|)
  {
  }

  lemma AddFills(c: Collector, n: Name, checksum: byte, seqNo: nat, index: nat, at: nat)
    requires 1 <= seqNo <= Pieces(n) < 0x20 && c.Fits()
    requires if seqNo == Pieces(n) then index == at else c == Filled(n, checksum, seqNo, at)
    ensures AddPiece(c, Piece(n, checksum, seqNo), index) == Filled(n, checksum, seqNo - 1, at)
  {
    hide Padded, Piece, Pieces, SlotUnits, FilledUnits, Patch, Blank, IsEnd, IsDeleted, IsLong, Le16;
    var s := Piece(n, checksum, seqNo);
    PieceHolds(n, checksum, seqNo);
    var c' := if IsLast(s) then Collector(Blank(seqNo * LFN_CHARS), s[13], seqNo, index) else c;
    assert c' == Filled(n, checksum, seqNo, at) by {
      FillUnits(Padded(n), 0, seqNo * LFN_CHARS);
    }
    assert AddPiece(c, s, index)
           == c'.(units := Patch(c'.units, (seqNo - 1) * LFN_CHARS, SlotUnits(s)), expected := seqNo - 1);
    FillUnits(Padded(n), (seqNo - 1) * LFN_CHARS, seqNo * LFN_CHARS);
  }

  /** Taking the pieces in turn fills the name in from the back, whatever was being collected. */
  lemma {:induction false} CollectFills(c: Collector, n: Name, checksum: byte, at: nat, k: nat)
    requires c.Fits() && 1 <= k <= Pieces(n) < 0x20
    ensures Collect(c, LongSlots(n, checksum), at, k) == Filled(n, checksum, Pieces(n) - k, at)
  {
    hide AddPiece, Piece, Filled, Pieces;
    if k > 1 {
      CollectFills(c, n, checksum, at, k - 1);
    }
    assert LongSlots(n, checksum)[k - 1] == Piece(n, checksum, Pieces(n) - (k - 1));
    AddFills(Collect(c, LongSlots(n, checksum), at, k - 1), n, checksum, Pieces(n) - (k - 1), at + k - 1, at);
  }

  lemma PaddedLength(n: Name)
    requires 0 !in n
    ensures NameLength(Padded(n)) <= |n|
    ensures 0xFFFF in n ==> NameLength(Padded(n)) < |n|
    ensures 0xFFFF !in n ==> NameLength(Padded(n)) == |n| && Padded(n)[..|n|] == n
  {
  }

  /** A stored long name reads back exactly when it does not hold the padding unit U+FFFF. */
  lemma LongNameReadsBack(c: Collector, n: Name, short: seq<byte>, at: nat)
    requires c.Fits() && 1 <= Pieces(n) < 0x20 && IsText(n) && 0 !in n
    ensures var r := Collect(c, LongSlots(n, Checksum(short)), at, Pieces(n));
            && r.start == at && TakeName(r, short).Some?
            && (TakeName(r, short) == Some(n) <==> 0xFFFF !in n)
  {
    CollectFills(c, n, Checksum(short), at, Pieces(n));
    FilledUnitsNone(Padded(n));
    PaddedLength(n);
  }

  lemma FilledUnitsNone(u: seq<Unit>)
    ensures FilledUnits(u, 0) == u
  {
  }

  /* Aliases. */

  /** The characters of `part` an alias keeps, at most `max`: no spaces or dots, in capitals, and an
      underscore for each that 8.3 names cannot have. */
  function Clean(part: Name, max: nat): (s: seq<byte>)
    ensures |s| <= max && forall i :: 0 <= i < |s| ==> IsAliasByte(s[i])
  {
    if part == [] || max == 0 then []
    else
      var u := part[0];
      if u == 0x20 || u == 0x2E || IsLow(u) then Clean(part[1..], max)
      else [if IsShortChar(u) then UpperByte(u) else 0x5F] + Clean(part[1..], max - 1)
  }

  predicate IsAliasByte(b: byte) { 0x20 < b < 0x7F }

  function TrimDots(n: Name): Name { if n != [] && n[0] == 0x2E then TrimDots(n[1..]) else n }

  /** Where the last dot is, if there is one. */
  function LastDot(n: Name): (i: nat)
    ensures i <= |n|
  {
    if n == [] then 0
    else if n[|n| - 1] == 0x2E then |n| - 1
    else
      var i := LastDot(n[..|n| - 1]);
      if i == |n| - 1 then |n| else i
  }

  function AliasBasis(n: Name): (s: seq<byte>)
    ensures 1 <= |s| <= 6 && forall i :: 0 <= i < |s| ==> IsAliasByte(s[i])
  {
    var t := TrimDots(n);
    var basis := Clean(t[..LastDot(t)], 6);
    if basis == [] then [0x5F] else basis
  }

  function AliasExtension(n: Name): (s: seq<byte>)
    ensures |s| <= 3 && forall i :: 0 <= i < |s| ==> IsAliasByte(s[i])
  {
    var t := TrimDots(n);
    if LastDot(t) < |t| then Clean(t[LastDot(t) + 1..], 3) else []
  }

  function Digits(n: nat): (s: seq<byte>)
    ensures |s| > 0 && forall i :: 0 <= i < |s| ==> 0x30 <= s[i] <= 0x39
  {
    if n < 10 then [0x30 + n] else Digits(n / 10) + [0x30 + n % 10]
  }

  function Pow10(k: nat): nat { if k == 0 then 1 else 10 * Pow10(k - 1) }

  lemma {:induction false} DigitCount(n: nat, k: nat)
    requires 1 <= k && n < Pow10(k)
    ensures |Digits(n)| <= k
  {
    if n >= 10 {
      DigitCount(n / 10, k - 1);
    }
  }

  lemma {:induction false} DigitsDiffer(n: nat, m: nat)
    requires Digits(n) == Digits(m)
    ensures n == m
  {
    if n >= 10 && m >= 10 {
      var a, b := Digits(n / 10), Digits(m / 10);
      assert Digits(n)[..|Digits(n)| - 1] == a && Digits(m)[..|Digits(m)| - 1] == b;
      assert Digits(n)[|a|] == 0x30 + n % 10 && Digits(m)[|b|] == 0x30 + m % 10;
      DigitsDiffer(n / 10, m / 10);
    }
  }

  /** Aliases are numbered from 1 to this: the number and its tilde take eight characters. */
  const MAX_ALIAS: nat := 9_999_999

  lemma AliasDigits(k: nat)
    requires k <= MAX_ALIAS
    ensures |Digits(k)| <= 7
  {
    assert Pow10(7) == 10_000_000;
    DigitCount(k, 7);
  }

  /** How much of the basis alias `k` keeps. */
  function Keep(basis: seq<byte>, k: nat): (n: nat)
    requires k <= MAX_ALIAS
    ensures n <= |basis| && n + 1 + |Digits(k)| <= 8
  {
    AliasDigits(k);
    if |basis| < 7 - |Digits(k)| then |basis| else 7 - |Digits(k)|
  }

  /** The `k`th alias of a basis and extension, like `LONGFI~1TXT`. */
  function Candidate(basis: seq<byte>, ext: seq<byte>, k: nat): (s: seq<byte>)
    requires |ext| <= 3 && k <= MAX_ALIAS
    ensures |s| == 11
  {
    var stem := basis[..Keep(basis, k)] + [0x7E] + Digits(k);
    stem + Spaces(8 - |stem|) + ext + Spaces(3 - |ext|)
  }

  /** Aliases with different numbers differ: the number is what follows the last tilde. */
  lemma CandidatesDiffer(basis: seq<byte>, ext: seq<byte>, j: nat, k: nat)
    requires |ext| <= 3 && j <= MAX_ALIAS && k <= MAX_ALIAS
    requires Candidate(basis, ext, j) == Candidate(basis, ext, k)
    requires Keep(basis, j) <= Keep(basis, k)
    ensures j == k
  {
    var s, m, n := Candidate(basis, ext, j), Keep(basis, j), Keep(basis, k);
    CandidateStem(basis, ext, j);
    CandidateStem(basis, ext, k);
    // The tilde of alias `k` lies among the digits of alias `j`, or past them, unless it is the same.
    assert m == n;
    assert |Digits(j)| == |Digits(k)|;
    assert Digits(j) == s[m + 1..m + 1 + |Digits(j)|] == Digits(k);
    DigitsDiffer(j, k);
  }

  lemma CandidateStem(basis: seq<byte>, ext: seq<byte>, k: nat)
    requires |ext| <= 3 && k <= MAX_ALIAS
    ensures var s, n := Candidate(basis, ext, k), Keep(basis, k);
            && s[n] == 0x7E && s[n + 1..n + 1 + |Digits(k)|] == Digits(k)
            && (n + 1 + |Digits(k)| < 8 ==> s[n + 1 + |Digits(k)|] == 0x20)
            && (forall i :: n < i < 8 ==> s[i] == if i < n + 1 + |Digits(k)| then Digits(k)[i - n - 1] else 0x20)
  {
  }

  /** The first `k` aliases, which are `k` different ones. */
  ghost function Candidates(basis: seq<byte>, ext: seq<byte>, k: nat): (s: set<seq<byte>>)
    requires |ext| <= 3 && k <= MAX_ALIAS
    ensures forall j :: 1 <= j <= k ==> Candidate(basis, ext, j) in s
    ensures forall a :: a in s ==> exists j :: 1 <= j <= k && a == Candidate(basis, ext, j)
    ensures |s| == k
  {
    if k == 0 then {}
    else
      var rest := Candidates(basis, ext, k - 1);
      assert Candidate(basis, ext, k) !in rest by {
        if Candidate(basis, ext, k) in rest {
          var j :| 1 <= j <= k - 1 && Candidate(basis, ext, k) == Candidate(basis, ext, j);
          if Keep(basis, j) <= Keep(basis, k) {
            CandidatesDiffer(basis, ext, j, k);
          } else {
            CandidatesDiffer(basis, ext, k, j);
          }
        }
      }
      rest + {Candidate(basis, ext, k)}
  }

  lemma {:induction false} SeqSetSize<T>(s: seq<T>)
    ensures |set x | x in s| <= |s|
  {
    if s != [] {
      var t := s[1..];
      SeqSetSize(t);
      assert (set x | x in s) == (set x | x in t) + {s[0]};
    }
  }

  /** No more aliases than there are taken names can be taken. */
  lemma TakenAliases(basis: seq<byte>, ext: seq<byte>, k: nat, taken: seq<seq<byte>>)
    requires |ext| <= 3 && k <= MAX_ALIAS
    requires forall j :: 1 <= j <= k ==> Candidate(basis, ext, j) in taken
    ensures k <= |taken|
  {
    SeqSetSize(taken);
    SubsetSize(Candidates(basis, ext, k), set x | x in taken);
  }

  /** A unique 8.3 alias for `n`: the first not taken, found within one more try than there are
      taken names. */
  method Alias(n: Name, taken: seq<seq<byte>>) returns (short: seq<byte>, tries: nat)
    requires |taken| < MAX_ALIAS
    ensures 1 <= tries <= |taken| + 1
    ensures short == Candidate(AliasBasis(n), AliasExtension(n), tries)
    ensures short !in taken
    ensures forall k :: 1 <= k < tries ==> Candidate(AliasBasis(n), AliasExtension(n), k) in taken
  {
    var basis, ext := AliasBasis(n), AliasExtension(n);
    tries := 1;
    short := Candidate(basis, ext, 1);
    while short in taken
      invariant 1 <= tries <= |taken| + 1
      invariant short == Candidate(basis, ext, tries)
      invariant forall k :: 1 <= k < tries ==> Candidate(basis, ext, k) in taken
      decreases |taken| + 1 - tries
    {
      TakenAliases(basis, ext, tries, taken);
      tries := tries + 1;
      short := Candidate(basis, ext, tries);
    }
  }
}
