/** Names of directory entries: 8.3 names, the long name pieces before them, and the aliases made up
    for long names. Names are UTF-16 code units. */
module FatNames {
  import opened Bytes

  type Unit = u: int | 0 <= u < 0x1_0000
  type Name = seq<Unit>

  const DIR_ENTRY_SIZE: nat := 32
  const LFN_CHARS: nat := 13
  const MAX_NAME: nat := 255

  /** A 32-byte slot of a directory. */
  type Slot = s: seq<byte> | |s| == DIR_ENTRY_SIZE witness Zeros(DIR_ENTRY_SIZE)

  predicate IsEnd(s: Slot) { s[0] == 0x00 }
  predicate IsDeleted(s: Slot) { s[0] == 0xE5 }
  predicate IsLong(s: Slot) { s[11] % 0x40 == 0x0F }
  predicate IsLast(s: Slot) { s[0] / 0x40 % 2 == 1 }
  predicate IsVolumeId(s: Slot) { s[11] / 0x08 % 2 == 1 }
  predicate IsDirectory(s: Slot) { s[11] / 0x10 % 2 == 1 }

  /** Slots that stand for a file or directory. */
  predicate IsPlain(s: Slot) { !IsEnd(s) && !IsDeleted(s) && !IsLong(s) && !IsVolumeId(s) }

  /** Checksum of an 8.3 name, stored in its long name pieces to tie them together. */
  function Checksum(short: seq<byte>): byte {
    if short == [] then 0
    else
      var sum := Checksum(short[..|short| - 1]) as int;
      (sum / 2 + sum % 2 * 0x80 + short[|short| - 1] as int) % 0x100
  }

  predicate IsHigh(u: Unit) { 0xD800 <= u < 0xDC00 }
  predicate IsLow(u: Unit) { 0xDC00 <= u < 0xE000 }

  /** Stored units as text: those that are half a surrogate pair are replaced. */
  function DecodeUnits(u: seq<Unit>): (n: Name)
    ensures |n| == |u|
  {
    if u == [] then []
    else if IsHigh(u[0]) && |u| > 1 && IsLow(u[1]) then u[..2] + DecodeUnits(u[2..])
    else if IsHigh(u[0]) || IsLow(u[0]) then [0xFFFD] + DecodeUnits(u[1..])
    else [u[0]] + DecodeUnits(u[1..])
  }

  /** Text: no unpaired surrogates. */
  predicate IsText(n: Name) { DecodeUnits(n) == n }

  /* Collecting long names. */

  /** Where a long name piece keeps its units. */
  function UnitOffset(i: nat): (at: nat)
    requires i < LFN_CHARS
    ensures 1 <= at <= 30
  {
    if i < 5 then 1 + 2 * i else if i < 11 then 14 + 2 * (i - 5) else 28 + 2 * (i - 11)
  }

  function UnitAt(s: Slot, i: nat): Unit
    requires i < LFN_CHARS
  {
    U16(s, UnitOffset(i))
  }

  function SlotUnits(s: Slot): (u: seq<Unit>)
    ensures |u| == LFN_CHARS
  {
    seq(LFN_CHARS, i requires 0 <= i < LFN_CHARS => UnitAt(s, i))
  }

  function Blank(n: nat): (u: seq<Unit>)
    ensures |u| == n && forall i :: 0 <= i < n ==> u[i] == 0xFFFF
  {
    seq(n, i => 0xFFFF)
  }

  /** The long name being collected: `expected` pieces are still to come, from slot `start` on. */
  datatype Collector = Collector(units: seq<Unit>, checksum: byte, expected: nat, start: nat) {
    predicate Fits() { 13 * expected <= |units| }
  }

  const NOTHING := Collector([], 0, 0, 0)

  /** Takes the piece in slot `index`; one out of sequence drops the name. */
  function AddPiece(c: Collector, s: Slot, index: nat): (r: Collector)
    requires c.Fits()
    ensures r.Fits()
    ensures r == NOTHING || (r.units != [] && r.start == if IsLast(s) then index else c.start)
    ensures c.units == [] && !IsLast(s) ==> r == NOTHING
  {
    var seqNo: nat := s[0] % 0x20;
    var c := if IsLast(s) then Collector(Blank(seqNo * LFN_CHARS), s[13], seqNo, index) else c;
    if seqNo == 0 || seqNo != c.expected || s[13] != c.checksum then NOTHING
    else c.(units := Patch(c.units, (seqNo - 1) * LFN_CHARS, SlotUnits(s)), expected := seqNo - 1)
  }

  /** How many units come before the terminator or padding. */
  function NameLength(units: seq<Unit>): (n: nat)
    ensures n <= |units|
    ensures forall i :: 0 <= i < n ==> units[i] != 0 && units[i] != 0xFFFF
    ensures n < |units| ==> units[n] == 0 || units[n] == 0xFFFF
  {
    if units == [] || units[0] == 0 || units[0] == 0xFFFF then 0 else 1 + NameLength(units[1..])
  }

  predicate IsComplete(c: Collector) { c.expected == 0 && c.units != [] }

  /** The collected name, if it is complete and belongs to `short`. */
  function TakeName(c: Collector, short: seq<byte>): (n: Option<Name>)
    ensures n.Some? ==> IsComplete(c)
  {
    if IsComplete(c) && c.checksum == Checksum(short) then Some(DecodeUnits(c.units[..NameLength(c.units)])) else None
  }

  /* 8.3 names. */

  const CASE_LOWER_BASE: nat := 0x08
  const CASE_LOWER_EXT: nat := 0x10

  predicate IsWhite(b: byte) { 9 <= b <= 13 || b == 0x20 || b == 0x85 || b == 0xA0 }

  function TrimEnd(s: seq<byte>): (r: seq<byte>)
    ensures s != [] && !IsWhite(s[0]) ==> r != []
    ensures r <= s
  {
    if s != [] && IsWhite(s[|s| - 1]) then TrimEnd(s[..|s| - 1]) else s
  }

  function ToLower(b: byte): byte {
    if 0x41 <= b <= 0x5A || (0xC0 <= b <= 0xDE && b != 0xD7) then b + 0x20 else b
  }

  function PartName(s: seq<byte>, lower: bool): (n: Name) {
    var text := TrimEnd(s);
    seq(|text|, i requires 0 <= i < |text| => PartUnit(text[i], lower))
  }

  function PartUnit(b: byte, lower: bool): Unit { if lower then ToLower(b) else b }

  predicate LowerBase(flags: byte) { flags / CASE_LOWER_BASE % 2 == 1 }
  predicate LowerExt(flags: byte) { flags / CASE_LOWER_EXT % 2 == 1 }

  /** The name an 8.3 slot spells. An initial 0xE5 is stored as 0x05. */
  function ShortName(s: Slot): Name {
    var base := PartName(s[..8], LowerBase(s[12]));
    var base := if s[0] == 0x05 then [0xE5] + base[1..] else base;
    var ext := PartName(s[8..11], LowerExt(s[12]));
    if ext == [] then base else base + DOT + ext
  }

  const DOT: Name := [0x2E]
  const DOT_DOT: Name := [0x2E, 0x2E]

  /* Names to be stored. */

  predicate IsForbidden(u: Unit) {
    u == 0x22 || u == 0x2A || u == 0x2F || u == 0x3A || u == 0x3C || u == 0x3E || u == 0x3F || u == 0x5C || u == 0x7C
  }

  /** A name FAT can store. */
  predicate CheckName(n: Name) {
    && 0 < |n| <= MAX_NAME
    && n != DOT && n != DOT_DOT
    && n[|n| - 1] != 0x20 && n[|n| - 1] != 0x2E
    && forall i :: 0 <= i < |n| ==> n[i] >= 0x20 && !IsForbidden(n[i])
  }

  predicate IsUpper(u: Unit) { 0x41 <= u <= 0x5A }
  predicate IsLower(u: Unit) { 0x61 <= u <= 0x7A }

  /** Characters 8.3 names allow. */
  predicate IsShortChar(u: Unit) {
    || IsUpper(u) || IsLower(u) || 0x30 <= u <= 0x39
    || u == 0x21 || 0x23 <= u <= 0x29 || u == 0x2D || u == 0x40 || 0x5E <= u <= 0x60 || u == 0x7B || u == 0x7D
       || u == 0x7E
  }

  function UpperByte(u: Unit): (b: byte)
    requires IsShortChar(u)
  {
    if IsLower(u) then u - 0x20 else u
  }

  predicate HasLower(part: Name) { exists i :: 0 <= i < |part| && IsLower(part[i]) }
  predicate HasUpper(part: Name) { exists i :: 0 <= i < |part| && IsUpper(part[i]) }
  predicate AllShort(part: Name) { forall i :: 0 <= i < |part| ==> IsShortChar(part[i]) }

  /** One part of an 8.3 name: characters it allows, in a single case. */
  predicate IsShortPart(part: Name) { AllShort(part) && !(HasLower(part) && HasUpper(part)) }

  function Uppercased(part: Name): (s: seq<byte>)
    requires AllShort(part)
    ensures |s| == |part|
  {
    seq(|part|, i requires 0 <= i < |part| => UpperByte(part[i]))
  }

  function Spaces(n: nat): (s: seq<byte>)
    ensures |s| == n && forall i :: 0 <= i < n ==> s[i] == 0x20
  {
    seq(n, i => 0x20)
  }

  /** Where the first dot is. */
  function FirstDot(n: Name): (i: nat)
    ensures i <= |n|
    ensures forall j :: 0 <= j < i ==> n[j] != 0x2E
    ensures i < |n| ==> n[i] == 0x2E
  {
    if n == [] || n[0] == 0x2E then 0 else 1 + FirstDot(n[1..])
  }

  function Base(n: Name): Name { n[..FirstDot(n)] }
  function Extension(n: Name): Name { if FirstDot(n) < |n| then n[FirstDot(n) + 1..] else [] }

  /** Whether `n` is an 8.3 name with, at most, a case flag for each part. */
  predicate IsExactShort(n: Name) {
    && 0 < |Base(n)| <= 8 && |Extension(n)| <= 3 && 0x2E !in Extension(n)
    && IsShortPart(Base(n)) && IsShortPart(Extension(n))
  }

  /** The 8.3 form of a name that has one. */
  function ExactShort(n: Name): (s: seq<byte>)
    requires IsExactShort(n)
    ensures |s| == 11
  {
    Uppercased(Base(n)) + Spaces(8 - |Base(n)|) + Uppercased(Extension(n)) + Spaces(3 - |Extension(n)|)
  }

  function CaseFlags(n: Name): (flags: byte)
    ensures LowerBase(flags) == HasLower(Base(n)) && LowerExt(flags) == HasLower(Extension(n))
  {
    (if HasLower(Base(n)) then CASE_LOWER_BASE else 0) + (if HasLower(Extension(n)) then CASE_LOWER_EXT else 0)
  }

  /** Text in capitals followed by spaces reads back, in either case, as the part it came from. */
  lemma {:induction false} TrimSpaces(text: seq<byte>, n: nat)
    requires text == [] || !IsWhite(text[|text| - 1])
    ensures TrimEnd(text + Spaces(n)) == text
  {
    if n == 0 {
      assert text + Spaces(0) == text;
    } else {
      var s := text + Spaces(n);
      assert s[..|s| - 1] == text + Spaces(n - 1);
      TrimSpaces(text, n - 1);
    }
  }

  lemma PartReadsBack(part: Name, n: nat)
    requires IsShortPart(part)
    ensures PartName(Uppercased(part) + Spaces(n), HasLower(part)) == part
  {
    TrimSpaces(Uppercased(part), n);
    forall i | 0 <= i < |part| ensures PartUnit(Uppercased(part)[i], HasLower(part)) == part[i] {
      assert IsShortChar(part[i]);
    }
  }

  /** The bytes of an 8.3 slot that spell its name. */
  predicate Spells(s: Slot, short: seq<byte>, flags: byte) {
    |short| == 11 && s[..11] == short && s[12] == flags
  }

  lemma PartsOfShort(n: Name, s: Slot)
    requires IsExactShort(n) && s[..11] == ExactShort(n)
    ensures s[..8] == Uppercased(Base(n)) + Spaces(8 - |Base(n)|)
    ensures s[8..11] == Uppercased(Extension(n)) + Spaces(3 - |Extension(n)|)
    ensures s[0] == UpperByte(Base(n)[0])
  {
    var base, ext := Uppercased(Base(n)) + Spaces(8 - |Base(n)|), Uppercased(Extension(n)) + Spaces(3 - |Extension(n)|);
    assert ExactShort(n) == base + ext;
    assert s[..8] == s[..11][..8];
    assert s[8..11] == s[..11][8..];
    assert s[0] == s[..8][0];
  }

  lemma PartsOfName(n: Name)
    requires n != [] && n[|n| - 1] != 0x2E
    ensures n == if Extension(n) == [] then Base(n) else Base(n) + DOT + Extension(n)
  {
  }

  lemma SlotPartsReadBack(n: Name, s: Slot)
    requires IsExactShort(n) && Spells(s, ExactShort(n), CaseFlags(n))
    ensures PartName(s[..8], LowerBase(s[12])) == Base(n)
    ensures PartName(s[8..11], LowerExt(s[12])) == Extension(n)
  {
    PartsOfShort(n, s);
    PartReadsBack(Base(n), 8 - |Base(n)|);
    PartReadsBack(Extension(n), 3 - |Extension(n)|);
  }

  lemma FirstByteIsShort(n: Name, s: Slot)
    requires IsExactShort(n) && s[..11] == ExactShort(n)
    ensures s[0] != 0x00 && s[0] != 0x05 && s[0] != 0xE5
  {
    PartsOfShort(n, s);
    assert IsShortChar(Base(n)[0]);
  }

  /** A name with an 8.3 form reads back from it, with its case flags. */
  lemma ExactShortReadsBack(n: Name, s: Slot)
    requires IsExactShort(n) && n[|n| - 1] != 0x2E && Spells(s, ExactShort(n), CaseFlags(n))
    ensures ShortName(s) == n
    ensures !IsEnd(s) && !IsDeleted(s)
  {
    FirstByteIsShort(n, s);
    SlotPartsReadBack(n, s);
    PartsOfName(n);
  }
}
