/** Receiving a kernel image in datagrams that may be lost, repeated or reordered. */
module Updates {
  import opened Bytes
  import opened Crc

  const CHUNK: nat := 1024
  const MAX_IMAGE: nat := 8 * 1024 * 1024

  datatype Reason = ShortBegin | BadSize | NotBegun | ShortData | BadChunk | ChunksMissing | CrcMismatch | Unknown

  datatype Response = Begun | Acknowledged(offset: nat) | Refused(reason: Reason) | Complete(image: seq<byte>)

  datatype Transfer = Transfer(crc: nat, image: seq<byte>, arrived: seq<bool>, missing: nat)

  /** A chunk as it came: where it goes, and its bytes. */
  datatype Chunk = Chunk(offset: nat, bytes: seq<byte>)

  function Chunks(size: nat): nat { (size + CHUNK - 1) / CHUNK }

  function ChunkLength(size: nat, offset: nat): nat {
    var left := if offset < size then size - offset else 0;
    if left < CHUNK then left else CHUNK
  }

  /** Chunks start on chunk boundaries and fill them, all but the last. */
  predicate Fits(size: nat, chunk: Chunk) {
    chunk.offset % CHUNK == 0 && chunk.offset < size && |chunk.bytes| == ChunkLength(size, chunk.offset)
  }

  /** The first bytes to arrive for `offset`. */
  function First(log: seq<Chunk>, offset: nat): Option<seq<byte>> {
    if log == [] then None else
    var before := First(log[..|log| - 1], offset);
    if before.None? && log[|log| - 1].offset == offset then Some(log[|log| - 1].bytes) else before
  }

  lemma {:induction false} FirstIsFirst(log: seq<Chunk>, offset: nat)
    ensures First(log, offset).None? <==> forall k :: 0 <= k < |log| ==> log[k].offset != offset
    ensures First(log, offset).Some? ==>
              exists k :: && 0 <= k < |log| && log[k] == Chunk(offset, First(log, offset).value)
                          && forall j :: 0 <= j < k ==> log[j].offset != offset
  {
    if log != [] {
      var n := |log| - 1;
      FirstIsFirst(log[..n], offset);
      assert forall k :: 0 <= k < n ==> log[..n][k] == log[k];
      if First(log[..n], offset).Some? {
        var k :| 0 <= k < n && log[..n][k] == Chunk(offset, First(log[..n], offset).value)
          && forall j :: 0 <= j < k ==> log[..n][j].offset != offset;
        assert log[k] == Chunk(offset, First(log, offset).value);
        assert forall j :: 0 <= j < k ==> log[j] == log[..n][j];
      } else if log[n].offset == offset {
        assert log[n] == Chunk(offset, First(log, offset).value);
      }
    }
  }

  function Missing(arrived: seq<bool>): nat {
    if arrived == [] then 0 else Missing(arrived[..|arrived| - 1]) + (if arrived[|arrived| - 1] then 0 else 1)
  }

  lemma {:induction false} NoneMissing(arrived: seq<bool>)
    ensures Missing(arrived) == 0 <==> forall i :: 0 <= i < |arrived| ==> arrived[i]
  {
    if arrived != [] {
      NoneMissing(arrived[..|arrived| - 1]);
    }
  }

  lemma {:induction false} OneFewerMissing(arrived: seq<bool>, i: nat)
    requires i < |arrived| && !arrived[i]
    ensures Missing(arrived) == Missing(arrived[i := true]) + 1
  {
    var n := |arrived| - 1;
    if i < n {
      OneFewerMissing(arrived[..n], i);
      assert arrived[i := true][..n] == arrived[..n][i := true];
    } else {
      assert arrived[i := true][..n] == arrived[..n];
    }
  }

  lemma {:induction false} AllMissing(n: nat)
    ensures Missing(seq(n, i => false)) == n
  {
    if n > 0 {
      AllMissing(n - 1);
      assert seq(n, i => false)[..n - 1] == seq(n - 1, i => false);
    }
  }

  /** Chunk `i` of `image` is the first that arrived for it. */
  predicate HasFirst(image: seq<byte>, log: seq<Chunk>, i: nat) {
    var first, at := First(log, i * CHUNK), i * CHUNK;
    first.Some? && at + |first.value| <= |image| && |first.value| == ChunkLength(|image|, at)
      && image[at..at + |first.value|] == first.value
  }

  /** Nothing has arrived for chunk `i`. */
  predicate Absent(log: seq<Chunk>, i: nat) { First(log, i * CHUNK).None? }

  /** What a transfer holds is what came for it since it began. */
  ghost predicate Tracks(t: Transfer, log: seq<Chunk>) {
    && 0 < |t.image| <= MAX_IMAGE && |t.arrived| == Chunks(|t.image|) && t.missing == Missing(t.arrived)
    && (forall k :: 0 <= k < |log| ==> Fits(|t.image|, log[k]))
    && (forall i :: 0 <= i < |t.arrived| ==> if t.arrived[i] then HasFirst(t.image, log, i) else Absent(log, i))
  }

  lemma BeginTracks(crc: nat, size: nat)
    requires 0 < size <= MAX_IMAGE
    ensures Tracks(Transfer(crc, Zeros(size), seq(Chunks(size), i => false), Chunks(size)), [])
  {
    AllMissing(Chunks(size));
  }

  lemma IndexOf(size: nat, chunk: Chunk)
    requires Fits(size, chunk)
    ensures chunk.offset / CHUNK < Chunks(size) && chunk.offset / CHUNK * CHUNK == chunk.offset
  {
  }

  /** The transfer with a chunk taken, unless it came before. */
  function Put(t: Transfer, chunk: Chunk): Transfer
    requires |t.arrived| == Chunks(|t.image|) && Fits(|t.image|, chunk)
  {
    IndexOf(|t.image|, chunk);
    var i := chunk.offset / CHUNK;
    if t.arrived[i] then t
    else t.(image := Patch(t.image, chunk.offset, chunk.bytes), arrived := t.arrived[i := true],
            missing := if t.missing > 0 then t.missing - 1 else 0)
  }

  lemma PutTracks(t: Transfer, log: seq<Chunk>, chunk: Chunk)
    requires Tracks(t, log) && Fits(|t.image|, chunk)
    ensures Tracks(Put(t, chunk), log + [chunk]) && |Put(t, chunk).image| == |t.image|
    ensures !t.arrived[chunk.offset / CHUNK] ==> t.missing > 0
  {
    hide Fits, HasFirst, First, Absent;
    IndexOf(|t.image|, chunk);
    var t', log', index := Put(t, chunk), log + [chunk], chunk.offset / CHUNK;
    if !t.arrived[index] {
      OneFewerMissing(t.arrived, index);
    }
    assert log'[..|log|] == log;
    forall i | 0 <= i < |t'.arrived| ensures if t'.arrived[i] then HasFirst(t'.image, log', i) else Absent(log', i) {
      PutChunk(t, log, chunk, i);
    }
  }

  lemma PutChunk(t: Transfer, log: seq<Chunk>, chunk: Chunk, i: nat)
    requires Tracks(t, log) && Fits(|t.image|, chunk) && i < |t.arrived|
    ensures var t', log' := Put(t, chunk), log + [chunk];
            i < |t'.arrived| && if t'.arrived[i] then HasFirst(t'.image, log', i) else Absent(log', i)
  {
    IndexOf(|t.image|, chunk);
    var t', log', index := Put(t, chunk), log + [chunk], chunk.offset / CHUNK;
    assert log'[..|log|] == log;
    assert i != index ==> i * CHUNK != chunk.offset;
    if t.arrived[i] && i != index {
      var at := i * CHUNK;
      var n := ChunkLength(|t.image|, at);
      assert at + n <= chunk.offset || chunk.offset + |chunk.bytes| <= at;
      assert t'.image[at..at + n] == t.image[at..at + n];
    } else if !t.arrived[i] && i == index {
      assert t'.image[chunk.offset..chunk.offset + |chunk.bytes|] == chunk.bytes;
    }
  }

  /** `image` is put together from the first chunk that arrived for each of its places. */
  ghost predicate IsAssembled(image: seq<byte>, log: seq<Chunk>) {
    forall i :: 0 <= i < Chunks(|image|) ==> HasFirst(image, log, i)
  }

  /** There is only one such image. */
  lemma AssembledOnce(x: seq<byte>, y: seq<byte>, log: seq<Chunk>)
    requires |x| == |y| && IsAssembled(x, log) && IsAssembled(y, log)
    ensures x == y
  {
    hide First;
    forall j | 0 <= j < |x| ensures x[j] == y[j] {
      var i := j / CHUNK;
      var at := i * CHUNK;
      assert HasFirst(x, log, i) && HasFirst(y, log, i);
      var n := ChunkLength(|x|, at);
      assert x[at..at + n][j - at] == y[at..at + n][j - at];
    }
  }

  class Receiver {
    var transfer: Option<Transfer>
    /** The chunks taken since the last begin, repeats and all. */
    ghost var log: seq<Chunk>

    ghost predicate Valid()
      reads this
    {
      transfer.Some? ==> Tracks(transfer.value, log)
    }

    constructor ()
      ensures Valid() && transfer.None?
    {
      transfer, log := None, [];
    }

    /** `B`: size, then CRC-32. */
    method Begin(datagram: seq<byte>) returns (response: Response)
      requires Valid()
      modifies this
      ensures Valid()
      ensures |datagram| < 9 ==> response == Refused(ShortBegin) && transfer == old(transfer) && log == old(log)
      ensures |datagram| >= 9 ==>
                var size := U32(datagram, 1);
                if 0 < size <= MAX_IMAGE then
                    response == Begun && log == [] && transfer.Some? && |transfer.value.image| == size
                      && transfer.value.crc == U32(datagram, 5)
                else response == Refused(BadSize) && transfer.None? && log == old(log)
    {
      hide Tracks;
      if |datagram| < 9 {
        return Refused(ShortBegin);
      }
      var size, crc := U32(datagram, 1), U32(datagram, 5);
      if size == 0 || size > MAX_IMAGE {
        transfer := None;
        return Refused(BadSize);
      }
      BeginTracks(crc, size);
      transfer := Some(Transfer(crc, Zeros(size), seq(Chunks(size), i => false), Chunks(size)));
      log := [];
      return Begun;
    }

    /** `D`: offset, then the bytes of a chunk. */
    method Data(datagram: seq<byte>) returns (response: Response)
      requires Valid() && |datagram| > 0
      modifies this
      ensures Valid()
      ensures response.Acknowledged?
              <==> && old(transfer).Some? && |datagram| >= 5
                   && Fits(|old(transfer).value.image|, Chunk(U32(datagram, 1), datagram[5..]))
      ensures response.Acknowledged? ==>
                && response.offset == U32(datagram, 1) && log == old(log) + [Chunk(response.offset, datagram[5..])]
                && transfer.Some? && transfer.value.crc == old(transfer).value.crc
                   && |transfer.value.image| == |old(transfer).value.image|
      ensures !response.Acknowledged? ==> response.Refused? && transfer == old(transfer) && log == old(log)
    {
      hide Tracks, Put;
      if transfer.None? {
        return Refused(NotBegun);
      }
      var t := transfer.value;
      if |datagram| < 5 {
        return Refused(ShortData);
      }
      var offset, bytes := U32(datagram, 1), datagram[5..];
      if offset % CHUNK != 0 || offset >= |t.image| || |bytes| != ChunkLength(|t.image|, offset) {
        return Refused(BadChunk);
      }
      ghost var chunk := Chunk(offset, bytes);
      PutIs(t, log, chunk);
      PutTracks(t, log, chunk);
      var index := offset / CHUNK;
      if !t.arrived[index] {
        t := Transfer(t.crc, Patch(t.image, offset, bytes), t.arrived[index := true], t.missing - 1);
      }
      transfer := Some(t);
      log := log + [chunk];
      return Acknowledged(offset);
    }

    /** `E`: the image comes out, if all of it is there and its CRC-32 is the one announced. */
    method End() returns (response: Response)
      requires Valid()
      modifies this
      ensures Valid() && log == old(log)
      ensures old(transfer).None? ==> response == Refused(NotBegun) && transfer.None?
      ensures response.Complete? ==>
                && old(transfer).Some? && |response.image| == |old(transfer).value.image|
                && IsAssembled(response.image, log) && Crc32(response.image) == old(transfer).value.crc
                   && transfer.None?
      ensures response == Refused(ChunksMissing) ==> transfer == old(transfer)
      ensures old(transfer).Some? ==>
                && (response == Refused(ChunksMissing)
                    <==> exists i :: 0 <= i < Chunks(|old(transfer).value.image|) && Absent(log, i))
                && (response.Complete? || response == Refused(ChunksMissing)
                    || (response == Refused(CrcMismatch) && transfer.None?))
      ensures response == Refused(CrcMismatch) ==>
              old(transfer).Some? && Crc32(old(transfer).value.image) != old(transfer).value.crc
                && IsAssembled(old(transfer).value.image, log)
    {
      hide Crc32, HasFirst, First, Absent;
      if transfer.None? {
        return Refused(NotBegun);
      }
      var t := transfer.value;
      NoneMissing(t.arrived);
      FirstOrNot(t, log);
      if t.missing != 0 {
        ghost var i :| 0 <= i < |t.arrived| && !t.arrived[i];
        assert Absent(log, i);
        return Refused(ChunksMissing);
      }
      transfer := None;
      var crc := Compute(t.image);
      return if crc != t.crc then Refused(CrcMismatch) else Complete(t.image);
    }

    method Handle(datagram: seq<byte>) returns (response: Response)
      requires Valid()
      modifies this
      ensures Valid()
      ensures response.Complete? ==>
                && old(transfer).Some? && |response.image| == |old(transfer).value.image|
                && IsAssembled(response.image, old(log)) && Crc32(response.image) == old(transfer).value.crc
      ensures response.Begun? <==> |datagram| >= 9 && datagram[0] == 66 && 0 < U32(datagram, 1) <= MAX_IMAGE
      ensures response.Begun? ==>
              log == [] && transfer.Some? && |transfer.value.image| == U32(datagram, 1)
                && transfer.value.crc == U32(datagram, 5)
      ensures response.Acknowledged? ==>
              |datagram| >= 5 && datagram[0] == 68 && log == old(log) + [Chunk(U32(datagram, 1), datagram[5..])]
      ensures !response.Begun? && !response.Acknowledged? ==> log == old(log)
      ensures !response.Begun? && transfer.Some? ==>
                old(transfer).Some? && transfer.value.crc == old(transfer).value.crc
                  && |transfer.value.image| == |old(transfer).value.image|
    {
      hide Tracks, IsAssembled, Crc32;
      if datagram == [] {
        return Refused(Unknown);
      }
      match datagram[0] {
        case 66 => response := Begin(datagram);
        case 68 => response := Data(datagram);
        case 69 => response := End();
        case _ => response := Refused(Unknown);
      }
    }
  }

  lemma PutIs(t: Transfer, log: seq<Chunk>, chunk: Chunk)
    requires Tracks(t, log) && Fits(|t.image|, chunk)
    ensures var i := chunk.offset / CHUNK;
            && i < |t.arrived| && chunk.offset + |chunk.bytes| <= |t.image|
            && (t.arrived[i] ==> Put(t, chunk) == t)
            && (!t.arrived[i] ==>
                t.missing > 0
                  && Put(t, chunk)
                     == Transfer(t.crc, Patch(t.image, chunk.offset, chunk.bytes), t.arrived[i := true], t.missing - 1))
  {
    PutTracks(t, log, chunk);
    IndexOf(|t.image|, chunk);
  }

  lemma FirstOrNot(t: Transfer, log: seq<Chunk>)
    requires Tracks(t, log)
    ensures forall i :: 0 <= i < |t.arrived| ==>
              if t.arrived[i] then HasFirst(t.image, log, i) && !Absent(log, i) else Absent(log, i)
  {
  }
}
