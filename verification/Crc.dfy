/** CRC-32 (IEEE 802.3) of a sequence of bytes, and the differences between two that it cannot miss. */
module Crc {
  import opened Bytes

  // Numbers as bits, the lowest first.

  function Power(n: nat): nat { if n == 0 then 1 else 2 * Power(n - 1) }

  function Bits(v: nat, n: nat): (s: seq<bool>)
    ensures |s| == n
  {
    if n == 0 then [] else [v % 2 == 1] + Bits(v / 2, n - 1)
  }

  function Value(s: seq<bool>): nat { if s == [] then 0 else (if s[0] then 1 else 0) + 2 * Value(s[1..]) }

  lemma {:induction false} BitsRoundTrip(v: nat, n: nat)
    requires v < Power(n)
    ensures Value(Bits(v, n)) == v
  {
    if n > 0 {
      BitsRoundTrip(v / 2, n - 1);
      assert Bits(v, n)[1..] == Bits(v / 2, n - 1);
    }
  }

  lemma {:induction false} ValueRoundTrip(s: seq<bool>)
    ensures Value(s) < Power(|s|) && Bits(Value(s), |s|) == s
  {
    if s != [] {
      ValueRoundTrip(s[1..]);
      assert s == [s[0]] + s[1..];
    }
  }

  lemma {:induction false} TopBit(v: nat, n: nat)
    requires 0 < n && Power(n - 1) <= v < Power(n)
    ensures Bits(v, n)[n - 1]
  {
    if n > 1 {
      TopBit(v / 2, n - 1);
    }
  }

  // The register.

  type Register = r: seq<bool> | |r| == 32 witness seq(32, i => false)

  function Xor(a: Register, b: Register): (r: Register)
    ensures forall i :: 0 <= i < 32 ==> r[i] == (a[i] != b[i])
  {
    seq(32, i requires 0 <= i < 32 => a[i] != b[i])
  }

  function Ones(): (r: Register)
    ensures forall i :: 0 <= i < 32 ==> r[i]
  {
    seq(32, i => true)
  }

  function Polynomial(): Register { Bits(0xEDB8_8320, 32) }

  /** A byte in the low bits. */
  function Low(b: byte): (r: Register)
    ensures forall i :: 8 <= i < 32 ==> !r[i]
  {
    Bits(b, 8) + seq(24, i => false)
  }

  function Right(a: Register): (r: Register)
    ensures forall i :: 0 <= i < 32 ==> r[i] == (i < 31 && a[i + 1])
  {
    a[1..] + [false]
  }

  function Shift(a: Register): Register { if a[0] then Xor(Right(a), Polynomial()) else Right(a) }

  function Shifts(a: Register, n: nat): Register { if n == 0 then a else Shift(Shifts(a, n - 1)) }

  function Byte(a: Register, b: byte): Register { Shifts(Xor(a, Low(b)), 8) }

  /** The register after `data`, from `a`. */
  function After(a: Register, data: seq<byte>): Register {
    if data == [] then a else Byte(After(a, data[..|data| - 1]), data[|data| - 1])
  }

  function Crc32(data: seq<byte>): nat { Value(Xor(After(Ones(), data), Ones())) }

  method Compute(data: seq<byte>) returns (crc: nat)
    ensures crc == Crc32(data)
  {
    hide Value, Xor, Right, Polynomial;
    var a: Register := Ones();
    var i := 0;
    while i < |data|
      invariant 0 <= i <= |data| && a == After(Ones(), data[..i])
    {
      a := Xor(a, Low(data[i]));
      ghost var start := a;
      var n := 0;
      while n < 8
        invariant 0 <= n <= 8 && a == Shifts(start, n)
      {
        a := if a[0] then Xor(Right(a), Polynomial()) else Right(a);
        n := n + 1;
      }
      assert data[..i + 1][..i] == data[..i] && data[..i + 1][i] == data[i];
      i := i + 1;
    }
    assert data[..i] == data;
    return Value(Xor(a, Ones()));
  }

  // The register is linear in what goes in, and loses nothing.

  lemma ShiftLinear(a: Register, b: Register)
    ensures Shift(Xor(a, b)) == Xor(Shift(a), Shift(b))
  {
    hide Polynomial;
  }

  lemma {:induction false} ShiftsLinear(a: Register, b: Register, n: nat)
    ensures Shifts(Xor(a, b), n) == Xor(Shifts(a, n), Shifts(b, n))
  {
    hide Shift, Xor;
    if n > 0 {
      ShiftsLinear(a, b, n - 1);
      ShiftLinear(Shifts(a, n - 1), Shifts(b, n - 1));
    }
  }

  /** The bit shifted out comes in at the top, so a clear top bit means it was clear. */
  lemma ShiftTop(a: Register)
    ensures Shift(a)[31] == a[0]
    ensures !a[0] ==> Shift(a) == Right(a)
  {
    hide Bits;
    assert Power(32) == 0x1_0000_0000 && Power(31) == 0x8000_0000 by {
      Powers();
    }
    TopBit(0xEDB8_8320, 32);
  }

  lemma Powers()
    ensures Power(31) == 0x8000_0000 && Power(32) == 0x1_0000_0000
  {
    assert Power(8) == 256;
    assert Power(16) == 0x1_0000;
    assert Power(24) == 0x100_0000;
  }

  /** The top `n` bits are clear. */
  predicate HighClear(a: Register, n: nat) { forall i :: 0 <= i < 32 && 32 <= i + n ==> !a[i] }

  /** If the top bits are clear after as many shifts, these shifted out zeros only. */
  lemma {:induction false} ZerosOut(a: Register, n: nat)
    requires n <= 32 && HighClear(Shifts(a, n), n)
    ensures forall i :: 0 <= i < n ==> !a[i]
    ensures forall i :: 0 <= i < 32 ==> Shifts(a, n)[i] == (i + n < 32 && a[i + n])
  {
    hide Shift;
    if n > 0 {
      var x := Shifts(a, n - 1);
      ShiftTop(x);
      assert !Shift(x)[31];
      assert forall i :: 0 <= i < 31 ==> x[i + 1] == Shift(x)[i];
      assert HighClear(x, n - 1) by {
        forall i | 0 <= i < 32 && 32 <= i + n - 1 ensures !x[i] {
          assert Shift(x)[i - 1] == x[i];
        }
      }
      ZerosOut(a, n - 1);
      assert x[0] == a[n - 1];
    }
  }

  /** What two bytes differ in goes through on its own. */
  lemma ByteDifference(a: Register, b: Register, x: byte, y: byte)
    ensures Xor(Byte(a, x), Byte(b, y)) == Shifts(Xor(Xor(a, b), Xor(Low(x), Low(y))), 8)
  {
    hide Shifts, Low;
    ShiftsLinear(Xor(a, Low(x)), Xor(b, Low(y)), 8);
    assert Xor(Xor(a, Low(x)), Xor(b, Low(y))) == Xor(Xor(a, b), Xor(Low(x), Low(y)));
  }

  lemma LowIsByte(x: byte, y: byte)
    requires forall i :: 0 <= i < 8 ==> Low(x)[i] == Low(y)[i]
    ensures x == y
  {
    assert Bits(x, 8) == Bits(y, 8) by {
      assert forall i :: 0 <= i < 8 ==> Bits(x, 8)[i] == Low(x)[i] && Bits(y, 8)[i] == Low(y)[i];
    }
    assert Power(8) == 256;
    BitsRoundTrip(x, 8);
    BitsRoundTrip(y, 8);
  }

  /** Up to four bytes leave different registers unless they are equal. */
  lemma {:induction false} FourBytesShow(a: Register, x: seq<byte>, y: seq<byte>)
    requires |x| == |y| <= 4 && HighClear(Xor(After(a, x), After(a, y)), 8 * |x|)
    ensures x == y
  {
    hide Shifts, Low, Byte;
    var n := |x| - 1;
    if n >= 0 {
      var p, q := After(a, x[..n]), After(a, y[..n]);
      ByteDifference(p, q, x[n], y[n]);
      var d := Xor(Xor(p, q), Xor(Low(x[n]), Low(y[n])));
      assert HighClear(Shifts(d, 8), 8);
      ZerosOut(d, 8);
      assert HighClear(Xor(p, q), 8 * n) by {
        forall i | 0 <= i < 32 && 32 <= i + 8 * n ensures !Xor(p, q)[i] {
          assert d[i] == Shifts(d, 8)[i - 8];
          assert d[i] == Xor(p, q)[i];
        }
      }
      FourBytesShow(a, x[..n], y[..n]);
      assert forall i :: 0 <= i < 8 ==> !d[i] && !Xor(p, q)[i];
      LowIsByte(x[n], y[n]);
      assert x == x[..n] + [x[n]] && y == y[..n] + [y[n]];
    }
  }

  /** Different registers stay different over equal bytes. */
  lemma {:induction false} DifferenceStays(a: Register, b: Register, data: seq<byte>)
    requires After(a, data) == After(b, data)
    ensures a == b
  {
    hide Shifts, Low, Byte;
    if data != [] {
      var n := |data| - 1;
      var p, q := After(a, data[..n]), After(b, data[..n]);
      ByteDifference(p, q, data[n], data[n]);
      var d := Xor(Xor(p, q), Xor(Low(data[n]), Low(data[n])));
      assert forall i :: 0 <= i < 32 ==> !Shifts(d, 8)[i];
      NothingLost(d, 8);
      assert p == q by {
        assert forall i :: 0 <= i < 32 ==> d[i] == (p[i] != q[i]);
      }
      DifferenceStays(a, b, data[..n]);
    }
  }

  lemma {:induction false} NothingLost(a: Register, n: nat)
    requires forall i :: 0 <= i < 32 ==> !Shifts(a, n)[i]
    ensures forall i :: 0 <= i < 32 ==> !a[i]
  {
    hide Shift;
    if n > 0 {
      var x := Shifts(a, n - 1);
      ShiftTop(x);
      assert Shifts(a, n) == Shift(x) && !Shift(x)[31];
      forall i | 0 <= i < 32 ensures !x[i] {
        assert i > 0 ==> x[i] == Shift(x)[i - 1];
      }
      NothingLost(a, n - 1);
    } else {
      assert Shifts(a, n) == a;
    }
  }

  lemma {:induction false} AfterBoth(a: Register, x: seq<byte>, y: seq<byte>)
    ensures After(a, x + y) == After(After(a, x), y)
  {
    hide Byte;
    if y == [] {
      assert x + y == x;
    } else {
      var n := |y| - 1;
      AfterBoth(a, x, y[..n]);
      assert (x + y)[..|x + y| - 1] == x + y[..n];
    }
  }

  /** Two images of one length that differ, but only within four consecutive bytes, never share a CRC-32. */
  lemma BurstsAreDetected(x: seq<byte>, y: seq<byte>, at: nat, n: nat)
    requires |x| == |y| && n <= 4 && at + n <= |x| && x[..at] == y[..at] && x[at + n..] == y[at + n..] && x != y
    ensures Crc32(x) != Crc32(y)
  {
    hide Byte, After;
    var head, tail := x[..at], x[at + n..];
    var u, v := x[at..at + n], y[at..at + n];
    assert x == head + u + tail && y == head + v + tail;
    var a := After(Ones(), head);
    AfterBoth(Ones(), head, u);
    AfterBoth(Ones(), head + u, tail);
    AfterBoth(Ones(), head, v);
    AfterBoth(Ones(), head + v, tail);
    if Crc32(x) == Crc32(y) {
      ValueRoundTrip(Xor(After(Ones(), x), Ones()));
      ValueRoundTrip(Xor(After(Ones(), y), Ones()));
      SameThroughXor(After(Ones(), x), After(Ones(), y));
      DifferenceStays(After(a, u), After(a, v), tail);
      FourBytesShow(a, u, v);
    }
  }

  lemma SameThroughXor(a: Register, b: Register)
    requires Xor(a, Ones()) == Xor(b, Ones())
    ensures a == b
  {
  }
}
