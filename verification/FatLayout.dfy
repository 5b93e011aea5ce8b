/** The layout of a FAT volume: the boot sector's geometry, and entries of the allocation table. */
module FatLayout {
  import opened Bytes

  const BLOCK_SIZE: nat := 512

  type Block = b: seq<byte> | |b| == BLOCK_SIZE witness Zeros(BLOCK_SIZE)

  const ZERO_BLOCK: Block := Zeros(BLOCK_SIZE)

  /** A block device's contents, by block number within the volume. Blocks never written read as
      zeros. */
  type Disk = map<nat, Block>

  function ReadBlock(d: Disk, sector: nat): Block {
    if sector in d then d[sector] else ZERO_BLOCK
  }

  datatype FatError =
    | NotFat
    | UnsupportedSectorSize(size: nat)
    | Fat12
    | BadCluster(cluster: nat)
    | ChainLoop
    | Truncated
    | NotFound
    | NotADirectory
    | NotAFile
    | AlreadyExists
    | NotEmpty
    | InvalidName
    | NoSpace
    | DirectoryFull
    | TooBig

  datatype Result<+T> = Ok(value: T) | Err(error: FatError) {
    predicate IsFailure() { Err? }
    function PropagateFailure<U>(): Result<U> requires Err? { Err(error) }
    function Extract(): T requires Ok? { value }
  }

  datatype FatType = Fat16 | Fat32 {
    function Width(): nat { if Fat16? then 2 else 4 }
    /** The bits of an entry that hold its value: FAT32's top four are reserved. */
    function Mask(): nat { if Fat16? then 0xFFFF else 0x0FFF_FFFF }
    /** From this value on, an entry ends its chain. */
    function EndMark(): nat { if Fat16? then 0xFFF8 else 0x0FFF_FFF8 }
    function BadMark(): nat { if Fat16? then 0xFFF7 else 0x0FFF_FFF7 }
  }

  datatype RootDir =
    | Fixed(start: nat, sectors: nat)
    | RootChain(first: nat)

  datatype Geometry = Geometry(
    fatType: FatType,
    sectorsPerCluster: nat,
    fatStart: nat,
    root: RootDir,
    dataStart: nat,
    clusterCount: nat,
    fatCount: nat,
    fatSize: nat,
    fsinfo: Option<nat>)
  {
    /** What `Mount` makes sure of. */
    predicate Mounted() {
      && 1 <= sectorsPerCluster <= 128
      && 1 <= fatStart && 1 <= fatCount && 1 <= fatSize
      && fatStart + fatCount * fatSize <= dataStart
      && (fatType == Fat16 ==> 4085 <= clusterCount < 65525)
      && (fatType == Fat32 ==> 65525 <= clusterCount <= 0x0FFF_FFF5)
      && (fatType == Fat16 <==> root.Fixed?)
      && (root.Fixed? ==> root.start == fatStart + fatCount * fatSize && root.start + root.sectors == dataStart)
      && (fsinfo.Some? ==> fatType == Fat32 && fsinfo.value != 0)
    }

    /** What a sound volume has besides, and `Mount` does not check. */
    predicate Sound() {
      && Mounted()
      && (clusterCount + 2) * fatType.Width() <= fatSize * BLOCK_SIZE
      && (fsinfo.Some? ==> fsinfo.value < fatStart)
    }

    predicate IsCluster(c: nat) { 2 <= c < clusterCount + 2 }

    function ClusterSize(): nat { sectorsPerCluster * BLOCK_SIZE }

    /** The sector a data cluster starts at. */
    function FirstSector(c: nat): nat requires 2 <= c { dataStart + (c - 2) * sectorsPerCluster }

    function SectorOf(c: nat, i: nat): nat requires 2 <= c { FirstSector(c) + i }

    /** The first FAT's sector that holds the entry of `c`. */
    function FatSector(c: nat): nat { fatStart + c * fatType.Width() / BLOCK_SIZE }

    /** Where in its sector the entry of `c` is. */
    function FatOffset(c: nat): nat { c * fatType.Width() % BLOCK_SIZE }

    /** Sectors of the FAT, in any copy. */
    predicate InFats(sector: nat) { fatStart <= sector < fatStart + fatCount * fatSize }

    predicate InFirstFat(sector: nat) { fatStart <= sector < fatStart + fatSize }

    /** Sector `sector` is part of cluster `c`. */
    predicate InCluster(sector: nat, c: nat) {
      2 <= c && FirstSector(c) <= sector < FirstSector(c) + sectorsPerCluster
    }
  }

  /** The powers of two a byte can hold. */
  predicate IsPowerOfTwo(b: byte) {
    b == 1 || b == 2 || b == 4 || b == 8 || b == 16 || b == 32 || b == 64 || b == 128
  }

  /** How many whole clusters `sectors` sectors of data make, at most what FAT32 can number. */
  function ClusterCount(sectors: nat, perCluster: nat): (n: nat)
    requires perCluster > 0
    ensures n <= 0x0FFF_FFF5
  {
    var clusters := sectors / perCluster;
    if clusters < 0x0FFF_FFF5 then clusters else 0x0FFF_FFF5
  }

  /** Opens the volume with boot sector `boot`. */
  function Mount(boot: Block): (r: Result<Geometry>)
    ensures r.Ok? ==> r.value.Mounted()
  {
    var perCluster := boot[13];
    var reserved := U16(boot, 14);
    var fatCount := boot[16];
    var rootEntries := U16(boot, 17);
    var total := if U16(boot, 19) == 0 then U32(boot, 32) else U16(boot, 19);
    var fatSize := if U16(boot, 22) == 0 then U32(boot, 36) else U16(boot, 22);
    if boot[510] != 0x55 || boot[511] != 0xAA then Err(NotFat)
    else if U16(boot, 11) != BLOCK_SIZE then Err(UnsupportedSectorSize(U16(boot, 11)))
    else if !IsPowerOfTwo(perCluster) then Err(NotFat)
    else if reserved == 0 || fatCount == 0 || fatSize == 0 then Err(NotFat)
    else
      var rootSectors := (rootEntries * 32 + BLOCK_SIZE - 1) / BLOCK_SIZE;
      Layout(perCluster, reserved, fatCount, fatSize, rootSectors, total, U32(boot, 44), U16(boot, 48))
  }

  /** The geometry the boot sector's numbers give: the cluster count alone decides the FAT type. */
  function Layout(perCluster: nat, reserved: nat, fatCount: nat, fatSize: nat, rootSectors: nat, total: nat,
                  rootCluster: nat, info: nat): (r: Result<Geometry>)
    requires 1 <= perCluster <= 128 && 1 <= reserved && 1 <= fatCount && 1 <= fatSize
    ensures r.Ok? ==> r.value.Mounted()
  {
    var rootStart := reserved + fatCount * fatSize;
    var dataStart := rootStart + rootSectors;
    if dataStart >= total then Err(NotFat)
    else
      var count := ClusterCount(total - dataStart, perCluster);
      if count < 4085 then Err(Fat12)
      else if count < 65525 then
        Ok(Geometry(Fat16, perCluster, reserved, Fixed(rootStart, rootSectors), dataStart, count, fatCount, fatSize,
                    None))
      else
        var fsinfo := if info != 0 && info != 0xFFFF then Some(info) else None;
        Ok(Geometry(Fat32, perCluster, reserved, RootChain(rootCluster), dataStart, count, fatCount, fatSize, fsinfo))
  }

  /** The value of the FAT entry at `at` in `block`. */
  function Decode(t: FatType, block: Block, at: nat): (v: nat)
    requires at + t.Width() <= BLOCK_SIZE
    ensures v <= t.Mask()
  {
    if t.Fat16? then U16(block, at) else U32(block, at) % 0x1000_0000
  }

  /** `block` with the FAT entry at `at` set to `value`; FAT32's reserved bits are kept. */
  function PutEntry(t: FatType, block: Block, at: nat, value: nat): (b: Block)
    requires at + t.Width() <= BLOCK_SIZE && value <= t.Mask()
  {
    if t.Fat16? then Patch(block, at, Le16(value))
    else Patch(block, at, Le32(U32(block, at) / 0x1000_0000 * 0x1000_0000 + value))
  }

  /** The FAT's entry for cluster `c`, in its first copy. */
  function FatEntry(g: Geometry, d: Disk, c: nat): (v: nat)
    ensures v <= g.fatType.Mask()
  {
    OffsetFits(g, c);
    Decode(g.fatType, ReadBlock(d, g.FatSector(c)), g.FatOffset(c))
  }

  lemma OffsetFits(g: Geometry, c: nat)
    ensures g.FatOffset(c) + g.fatType.Width() <= BLOCK_SIZE
    ensures g.FatOffset(c) % g.fatType.Width() == 0
  {
  }

  /** No cluster's number can be taken for the end or bad marker. */
  lemma ClustersAreNoMarkers(g: Geometry, c: nat)
    requires g.Mounted() && g.IsCluster(c)
    ensures 0 < c < g.fatType.BadMark() < g.fatType.EndMark() <= g.fatType.Mask()
  {
  }

  /** Setting an entry sets it, keeps the reserved bits of FAT32, and changes no other entry. */
  lemma PutEntryDecode(t: FatType, block: Block, at: nat, value: nat, other: nat)
    requires at + t.Width() <= BLOCK_SIZE && value <= t.Mask()
    requires other + t.Width() <= BLOCK_SIZE && at % t.Width() == 0 && other % t.Width() == 0
    ensures Decode(t, PutEntry(t, block, at, value), at) == value
    ensures other != at ==> Decode(t, PutEntry(t, block, at, value), other) == Decode(t, block, other)
    ensures t.Fat32? ==> U32(PutEntry(t, block, at, value), at) / 0x1000_0000 == U32(block, at) / 0x1000_0000
  {
    hide U16, U32, Le16, Le32, Patch;
    assert other != at ==> other + t.Width() <= at || at + t.Width() <= other;
    if t.Fat16? {
      PatchU16(block, at, value, other);
    } else {
      PatchU32(block, at, U32(block, at) / 0x1000_0000 * 0x1000_0000 + value, other);
    }
  }

  /** Clusters' FAT entries lie in the first FAT, at places of their own. */
  lemma EntryPlaces(g: Geometry, c: nat)
    requires g.Sound() && g.IsCluster(c)
    ensures g.InFirstFat(g.FatSector(c))
    ensures forall c': nat :: g.FatSector(c') == g.FatSector(c) && g.FatOffset(c') == g.FatOffset(c) ==> c' == c
  {
  }

  /** The first FAT is part of the FATs, which come before the root directory and the data. */
  lemma Regions(g: Geometry)
    requires g.Mounted()
    ensures forall s: nat :: g.InFirstFat(s) ==> g.InFats(s)
    ensures forall s: nat :: g.InFats(s) ==> 0 < s < g.dataStart
    ensures g.root.Fixed? ==> g.fatStart < g.root.start && forall s: nat :: g.InFats(s) ==> s < g.root.start
    ensures g.fatStart < g.dataStart
  {
  }

  lemma ProductsApart(a: nat, b: nat, k: nat)
    requires a < b
    ensures a * k + k <= b * k
  {
    assert (b - a - 1) * k >= 0;
  }

  /** Different clusters have different sectors. */
  lemma ClustersApart(g: Geometry, c: nat, c': nat, sector: nat)
    requires g.InCluster(sector, c) && g.InCluster(sector, c')
    ensures c == c'
  {
    if c < c' {
      ProductsApart(c - 2, c' - 2, g.sectorsPerCluster);
    } else if c' < c {
      ProductsApart(c' - 2, c - 2, g.sectorsPerCluster);
    }
  }

  /** A cluster's sectors are data: past the FATs, the fixed root directory and the reserved area. */
  lemma ClusterIsData(g: Geometry, c: nat, sector: nat)
    requires g.Mounted() && g.InCluster(sector, c)
    ensures g.dataStart <= sector && !g.InFats(sector) && sector != 0
    ensures g.root.Fixed? ==> g.root.start + g.root.sectors <= sector
  {
    assert (c - 2) * g.sectorsPerCluster >= 0;
  }
}
