/** The Internet checksum (RFC 1071), and UDP datagrams in IPv4 packets in Ethernet frames. */
module Packets {
  import opened Bytes
  import opened Arithmetic

  function At16(s: seq<byte>, at: nat): (v: nat)
    requires at + 2 <= |s|
    ensures v < 0x1_0000
  {
    s[at] as int * 0x100 + s[at + 1] as int
  }

  function Be16(v: nat): (s: seq<byte>)
    requires v < 0x1_0000
    ensures |s| == 2 && At16(s, 0) == v
  {
    [v / 0x100, v % 0x100]
  }

  // The checksum.

  /** `data` added to a running sum, as 16-bit big endian words. */
  function Sum(acc: nat, data: seq<byte>): nat
    decreases |data|
  {
    if |data| == 0 then acc
    else if |data| == 1 then acc + data[0] as int * 0x100
    else Sum(acc + At16(data, 0), data[2..])
  }

  /** A sum with its carries added back in until there are none. */
  function Fold(acc: nat): nat {
    if acc < 0x1_0000 then acc else Fold(acc % 0x1_0000 + acc / 0x1_0000)
  }

  function Finish(acc: nat): nat { if Fold(acc) <= 0xFFFF then 0xFFFF - Fold(acc) else 0 }

  method AddUp(acc: nat, data: seq<byte>) returns (sum: nat)
    requires acc + 0x8000 * (|data| + 1) < 0x1_0000_0000
    ensures sum == Sum(acc, data) < 0x1_0000_0000
  {
    sum := acc;
    var i := 0;
    while i + 2 <= |data|
      invariant 0 <= i <= |data| && i % 2 == 0 && Sum(sum, data[i..]) == Sum(acc, data)
      invariant sum + 0x8000 * (|data| - i + 1) < 0x1_0000_0000
    {
      assert data[i..][2..] == data[i + 2..];
      sum := sum + At16(data, i);
      i := i + 2;
    }
    if i < |data| {
      sum := sum + data[i] as int * 0x100;
    }
  }

  method FoldUp(acc: nat) returns (checksum: nat)
    requires acc < 0x1_0000_0000
    ensures checksum == Finish(acc) < 0x1_0000
  {
    var folded := acc;
    while folded / 0x1_0000 != 0
      invariant Fold(folded) == Fold(acc) && folded < 0x1_0000_0000
      decreases folded
    {
      folded := folded % 0x1_0000 + folded / 0x1_0000;
    }
    checksum := 0xFFFF - folded;
  }

  /** Folding keeps the sum modulo 65535, and makes 0 of nothing but 0. */
  lemma {:induction false} FoldIs(acc: nat)
    ensures Fold(acc) < 0x1_0000 && (Fold(acc) == 0 <==> acc == 0) && (acc - Fold(acc)) % 0xFFFF == 0
  {
    if acc >= 0x1_0000 {
      var less := acc % 0x1_0000 + acc / 0x1_0000;
      FoldIs(less);
      assert acc - less == 0xFFFF * (acc / 0x1_0000);
      var q := (less - Fold(less)) / 0xFFFF;
      DivMod(0xFFFF, acc / 0x1_0000 + q, 0);
    }
  }

  /** A checksum of 0 means that the sum is a multiple of 65535, and not 0. */
  lemma ZeroMeansMultiple(acc: nat)
    ensures Finish(acc) == 0 <==> acc > 0 && acc % 0xFFFF == 0
  {
    FoldIs(acc);
    var f := Fold(acc);
    var q := (acc - f) / 0xFFFF;
    assert acc == 0xFFFF * q + f;
    if f == 0xFFFF {
      DivMod(0xFFFF, q + 1, 0);
    } else {
      DivMod(0xFFFF, q, f);
    }
  }

  /** With the checksum of the rest in it, a sum has checksum 0: also with all ones sent for 0. */
  lemma ChecksumChecks(acc: nat)
    ensures Finish(acc + Finish(acc)) == 0 && Finish(acc) < 0x1_0000
    ensures Finish(acc) == 0 ==> Finish(acc + 0xFFFF) == 0
  {
    FoldIs(acc);
    var q := (acc - Fold(acc)) / 0xFFFF;
    DivMod(0xFFFF, q + 1, 0);
    ZeroMeansMultiple(acc + Finish(acc));
    if Finish(acc) == 0 {
      DivMod(0xFFFF, q + 2, 0);
      ZeroMeansMultiple(acc + 0xFFFF);
    }
  }

  lemma {:induction false} SumFrom(acc: nat, data: seq<byte>)
    ensures Sum(acc, data) == acc + Sum(0, data)
    decreases |data|
  {
    if |data| >= 2 {
      SumFrom(acc + At16(data, 0), data[2..]);
      SumFrom(At16(data, 0), data[2..]);
    }
  }

  lemma {:induction false} SumJoined(acc: nat, a: seq<byte>, b: seq<byte>)
    requires |a| % 2 == 0
    ensures Sum(acc, a + b) == Sum(Sum(acc, a), b)
    decreases |a|
  {
    if a == [] {
      assert a + b == b;
    } else {
      assert (a + b)[2..] == a[2..] + b;
      SumJoined(acc + At16(a, 0), a[2..], b);
    }
  }

  /** A 16-bit field at an even place adds its value. */
  lemma FieldAdds(acc: nat, head: seq<byte>, v: nat, tail: seq<byte>)
    requires |head| % 2 == 0 && v < 0x1_0000
    ensures Sum(acc, head + Be16(v) + tail) == Sum(acc, head + Be16(0) + tail) + v
  {
    FieldSum(acc, head, v, tail);
    FieldSum(acc, head, 0, tail);
  }

  lemma FieldSum(acc: nat, head: seq<byte>, v: nat, tail: seq<byte>)
    requires |head| % 2 == 0 && v < 0x1_0000
    ensures Sum(acc, head + Be16(v) + tail) == Sum(acc, head) + v + Sum(0, tail)
  {
    hide Be16;
    SumJoined(acc, head + Be16(v), tail);
    SumJoined(acc, head, Be16(v));
    SumFrom(Sum(acc, head + Be16(v)), tail);
    OneWord(Sum(acc, head), v);
  }

  lemma OneWord(acc: nat, v: nat)
    requires v < 0x1_0000
    ensures Sum(acc, Be16(v)) == acc + v
  {
  }

  /**
   * A word that changed in what had checksum 0 shows, unless it went from 0 to all ones or back
   * (and there is something else in the sum).
   */
  lemma ChangedWordShows(acc: nat, head: seq<byte>, v: nat, w: nat, tail: seq<byte>)
    requires |head| % 2 == 0 && v < 0x1_0000 && w < 0x1_0000 && Finish(Sum(acc, head + Be16(v) + tail)) == 0
    ensures Finish(Sum(acc, head + Be16(w) + tail)) == 0 <==>
            v == w || (v == 0 && w == 0xFFFF) || (v == 0xFFFF && w == 0 && Sum(acc, head + Be16(0) + tail) > 0)
  {
    hide Sum, Be16, Finish;
    FieldAdds(acc, head, v, tail);
    FieldAdds(acc, head, w, tail);
    var rest := Sum(acc, head + Be16(0) + tail);
    ZeroMeansMultiple(rest + v);
    ZeroMeansMultiple(rest + w);
    var q := (rest + v) / 0xFFFF;
    assert rest + w == 0xFFFF * q + (w - v);
    if w - v == 0xFFFF {
      DivMod(0xFFFF, q + 1, 0);
    } else if w >= v {
      DivMod(0xFFFF, q, w - v);
    } else if v - w == 0xFFFF {
      DivMod(0xFFFF, q - 1, 0);
    } else {
      DivMod(0xFFFF, q - 1, 0xFFFF + w - v);
    }
  }

  // UDP.

  type Ipv4 = a: seq<byte> | |a| == 4 witness [0, 0, 0, 0]

  type Mac = a: seq<byte> | |a| == 6 witness [0, 0, 0, 0, 0, 0]

  datatype Datagram = Datagram(srcPort: nat, dstPort: nat, payload: seq<byte>)

  /** The sum of a datagram and its pseudo-header (RFC 768). */
  function DatagramSum(src: Ipv4, dst: Ipv4, datagram: seq<byte>): nat {
    Sum(Sum(Sum(0, src), dst) + 17 + |datagram|, datagram)
  }

  function ParseUdp(bytes: seq<byte>, src: Ipv4, dst: Ipv4): Option<Datagram> {
    if |bytes| < 8 then None else
    var length := At16(bytes, 4);
    if length < 8 || length > |bytes| then None
    else if At16(bytes, 6) != 0 && Finish(DatagramSum(src, dst, bytes[..length])) != 0 then None
    else Some(Datagram(At16(bytes, 0), At16(bytes, 2), bytes[8..length]))
  }

  function UdpWith(srcPort: nat, dstPort: nat, checksum: nat, payload: seq<byte>): seq<byte>
    requires srcPort < 0x1_0000 && dstPort < 0x1_0000 && checksum < 0x1_0000
  {
    Be16(srcPort) + Be16(dstPort) + Be16((8 + |payload|) % 0x1_0000) + Be16(checksum) + payload
  }

  /** The length field holds the low 16 bits of the length. */
  function BuildUdp(src: Ipv4, srcPort: nat, dst: Ipv4, dstPort: nat, payload: seq<byte>): seq<byte>
    requires srcPort < 0x1_0000 && dstPort < 0x1_0000
  {
    var checksum := Finish(DatagramSum(src, dst, UdpWith(srcPort, dstPort, 0, payload)));
    UdpWith(srcPort, dstPort, if checksum == 0 then 0xFFFF else checksum, payload)
  }

  /** A datagram built parses back exactly if its length fits 16 bits. */
  lemma UdpRoundTrip(src: Ipv4, srcPort: nat, dst: Ipv4, dstPort: nat, payload: seq<byte>)
    requires srcPort < 0x1_0000 && dstPort < 0x1_0000
    ensures ParseUdp(BuildUdp(src, srcPort, dst, dstPort, payload), src, dst)
            == Some(Datagram(srcPort, dstPort, payload))
            <==> 8 + |payload| < 0x1_0000
  {
    hide Finish, DatagramSum;
    var zeroed := DatagramSum(src, dst, UdpWith(srcPort, dstPort, 0, payload));
    ChecksumChecks(zeroed);
    var c := if Finish(zeroed) == 0 then 0xFFFF else Finish(zeroed);
    UdpField(src, dst, srcPort, dstPort, c, payload);
    UdpShape(srcPort, dstPort, c, payload);
    var built := UdpWith(srcPort, dstPort, c, payload);
    if 8 + |payload| < 0x1_0000 {
      assert built[..|built|] == built;
    } else if ParseUdp(built, src, dst).Some? {
      assert |ParseUdp(built, src, dst).value.payload| < |payload|;
    }
  }

  lemma UdpField(src: Ipv4, dst: Ipv4, srcPort: nat, dstPort: nat, c: nat, payload: seq<byte>)
    requires srcPort < 0x1_0000 && dstPort < 0x1_0000 && c < 0x1_0000
    ensures DatagramSum(src, dst, UdpWith(srcPort, dstPort, c, payload))
            == DatagramSum(src, dst, UdpWith(srcPort, dstPort, 0, payload)) + c
  {
    hide Sum, Be16;
    var head := Be16(srcPort) + Be16(dstPort) + Be16((8 + |payload|) % 0x1_0000);
    FieldAdds(Sum(Sum(0, src), dst) + 17 + |UdpWith(srcPort, dstPort, c, payload)|, head, c, payload);
  }

  lemma UdpShape(srcPort: nat, dstPort: nat, c: nat, payload: seq<byte>)
    requires srcPort < 0x1_0000 && dstPort < 0x1_0000 && c < 0x1_0000
    ensures var built := UdpWith(srcPort, dstPort, c, payload);
            && |built| == 8 + |payload| && At16(built, 0) == srcPort && At16(built, 2) == dstPort
            && At16(built, 4) == (8 + |payload|) % 0x1_0000 && At16(built, 6) == c && built[8..] == payload
  {
  }

  // IPv4.

  datatype Packet = Packet(src: Ipv4, dst: Ipv4, protocol: byte, payload: seq<byte>)

  function ParseIpv4(bytes: seq<byte>): Option<Packet> {
    if |bytes| < 20 || bytes[0] as int / 16 != 4 then None else
    var header, total := bytes[0] as int % 16 * 4, At16(bytes, 2);
    if header < 20 || total < header || total > |bytes| || Finish(Sum(0, bytes[..header])) != 0 then None
    else if At16(bytes, 6) % 0x4000 != 0 then None
    else Some(Packet(bytes[12..16], bytes[16..20], bytes[9], bytes[header..total]))
  }

  /** Version 4, a header of 20 bytes, not to be fragmented, 64 hops to live. */
  function Ipv4Header(src: Ipv4, dst: Ipv4, protocol: byte, id: nat, length: nat, checksum: nat): seq<byte>
    requires id < 0x1_0000 && checksum < 0x1_0000
  {
    [0x45, 0] + Be16((20 + length) % 0x1_0000) + Be16(id) + Be16(0x4000) + [64, protocol] + Be16(checksum) + (src + dst)
  }

  function BuildIpv4(src: Ipv4, dst: Ipv4, protocol: byte, id: nat, payload: seq<byte>): seq<byte>
    requires id < 0x1_0000
  {
    ChecksumChecks(Sum(0, Ipv4Header(src, dst, protocol, id, |payload|, 0)));
    Ipv4Header(src, dst, protocol, id, |payload|, Finish(Sum(0, Ipv4Header(src, dst, protocol, id, |payload|, 0))))
        + payload
  }

  /** A packet built parses back, whatever padding follows it, exactly if its length fits 16 bits. */
  lemma Ipv4RoundTrip(src: Ipv4, dst: Ipv4, protocol: byte, id: nat, payload: seq<byte>, padding: seq<byte>)
    requires id < 0x1_0000
    ensures ParseIpv4(BuildIpv4(src, dst, protocol, id, payload) + padding) == Some(Packet(src, dst, protocol, payload))
            <==> 20 + |payload| < 0x1_0000
  {
    hide Finish, Sum, Ipv4Header;
    var sum := Sum(0, Ipv4Header(src, dst, protocol, id, |payload|, 0));
    ChecksumChecks(sum);
    var c := Finish(sum);
    Ipv4Field(src, dst, protocol, id, |payload|, c);
    Ipv4Shape(src, dst, protocol, id, |payload|, c);
    var header := Ipv4Header(src, dst, protocol, id, |payload|, c);
    var built := header + payload + padding;
    assert built[..20] == header;
    assert forall i :: 0 <= i < 20 ==> built[i] == header[i];
    assert built[12..16] == header[12..16] && built[16..20] == header[16..20];
    assert built[20..20 + |payload|] == payload;
    if 20 + |payload| >= 0x1_0000 && ParseIpv4(built).Some? {
      assert |ParseIpv4(built).value.payload| < |payload|;
    }
  }

  lemma Ipv4Field(src: Ipv4, dst: Ipv4, protocol: byte, id: nat, length: nat, c: nat)
    requires id < 0x1_0000 && c < 0x1_0000
    ensures Sum(0, Ipv4Header(src, dst, protocol, id, length, c))
            == Sum(0, Ipv4Header(src, dst, protocol, id, length, 0)) + c
  {
    hide Sum, Be16;
    FieldAdds(0, [0x45, 0] + Be16((20 + length) % 0x1_0000) + Be16(id) + Be16(0x4000) + [64, protocol], c, src + dst);
  }

  lemma Ipv4Shape(src: Ipv4, dst: Ipv4, protocol: byte, id: nat, length: nat, c: nat)
    requires id < 0x1_0000 && c < 0x1_0000
    ensures var header := Ipv4Header(src, dst, protocol, id, length, c);
            && |header| == 20 && header[0] == 0x45 && At16(header, 2) == (20 + length) % 0x1_0000
               && At16(header, 6) == 0x4000
            && header[9] == protocol && header[12..16] == src && header[16..20] == dst
  {
  }

  // Ethernet.

  datatype Frame = Frame(dst: Mac, src: Mac, ethertype: nat, payload: seq<byte>)

  function ParseEthernet(bytes: seq<byte>): Option<Frame> {
    if |bytes| < 14 then None else Some(Frame(bytes[0..6], bytes[6..12], At16(bytes, 12), bytes[14..]))
  }

  /** Short frames are padded to 60 bytes. */
  function BuildEthernet(dst: Mac, src: Mac, ethertype: nat, payload: seq<byte>): seq<byte>
    requires ethertype < 0x1_0000
  {
    var frame := dst + src + Be16(ethertype) + payload;
    if |frame| < 60 then frame + Zeros(60 - |frame|) else frame
  }

  lemma EthernetRoundTrip(dst: Mac, src: Mac, ethertype: nat, payload: seq<byte>)
    requires ethertype < 0x1_0000
    ensures var padding := Zeros(if |payload| < 46 then 46 - |payload| else 0);
            ParseEthernet(BuildEthernet(dst, src, ethertype, payload))
              == Some(Frame(dst, src, ethertype, payload + padding))
  {
    var frame := BuildEthernet(dst, src, ethertype, payload);
    assert frame[0..6] == dst && frame[6..12] == src;
    assert frame[12..14] == Be16(ethertype);
    assert frame[14..] == payload + Zeros(if |payload| < 46 then 46 - |payload| else 0);
  }

  /** A datagram in a packet in a frame comes out as it went in, padding and all. */
  lemma FrameRoundTrip(dstMac: Mac, srcMac: Mac, src: Ipv4, dst: Ipv4, id: nat, srcPort: nat, dstPort: nat,
                       payload: seq<byte>)
    requires id < 0x1_0000 && srcPort < 0x1_0000 && dstPort < 0x1_0000 && 28 + |payload| < 0x1_0000
    ensures var frame :=
            ParseEthernet(BuildEthernet(dstMac, srcMac, 0x800,
                                        BuildIpv4(src, dst, 17, id, BuildUdp(src, srcPort, dst, dstPort, payload))));
            && frame.Some? && frame.value.ethertype == 0x800
            && var packet := ParseIpv4(frame.value.payload);
               packet.Some? && packet.value.protocol == 17
               && ParseUdp(packet.value.payload, packet.value.src, packet.value.dst)
                  == Some(Datagram(srcPort, dstPort, payload))
  {
    hide ParseEthernet, BuildEthernet, ParseIpv4, BuildIpv4, ParseUdp, BuildUdp;
    var datagram := BuildUdp(src, srcPort, dst, dstPort, payload);
    UdpLength(src, srcPort, dst, dstPort, payload);
    var packet := BuildIpv4(src, dst, 17, id, datagram);
    EthernetRoundTrip(dstMac, srcMac, 0x800, packet);
    Ipv4RoundTrip(src, dst, 17, id, datagram, Zeros(if |packet| < 46 then 46 - |packet| else 0));
    UdpRoundTrip(src, srcPort, dst, dstPort, payload);
  }

  lemma UdpLength(src: Ipv4, srcPort: nat, dst: Ipv4, dstPort: nat, payload: seq<byte>)
    requires srcPort < 0x1_0000 && dstPort < 0x1_0000
    ensures |BuildUdp(src, srcPort, dst, dstPort, payload)| == 8 + |payload|
  {
  }

  /** Sums of everything these packets hold fit the 32-bit accumulator. */
  lemma {:induction false} SumFits(acc: nat, data: seq<byte>)
    ensures Sum(acc, data) <= acc + 0x8000 * (|data| + 1)
    decreases |data|
  {
    if |data| >= 2 {
      SumFits(acc + At16(data, 0), data[2..]);
    }
  }

  lemma AccumulatorsFit(src: Ipv4, dst: Ipv4, datagram: seq<byte>)
    requires |datagram| < 0x1_0000
    ensures DatagramSum(src, dst, datagram) < 0x1_0000_0000
  {
    SumFits(0, src);
    SumFits(Sum(0, src), dst);
    SumFits(Sum(Sum(0, src), dst) + 17 + |datagram|, datagram);
  }
}
