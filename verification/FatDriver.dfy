/** fat32.c: the driver's state and its operations on the disk image, each proved against FatSpec. */
module FatDriver {
  import opened Bytes
  import opened Layout
  import opened StdMem
  import opened FatSpec
  import opened FatChains
  import BlockDisk

  function ClusterToLba(cluster: DWord): (lba: DWord)
    ensures cluster < 0x4000_0000 ==> lba == 4 * cluster
  {
    cluster * 4 % 0x1_0000_0000
  }

  /** The cluster of the disk that a 32-bit cluster number reaches: its block number wraps at 32 bits. */
  function Reached(cluster: DWord): (c: nat)
    ensures ClusterToLba(cluster) == 4 * c
    ensures cluster < 0x4000_0000 ==> c == cluster
  {
    cluster % 0x4000_0000
  }

  /** How many clusters a count of them comes to: its block count is cut to 8 bits. */
  function Counted(count: Byte): (n: nat)
    ensures 4 * count % 0x100 == 4 * n < 0x100
    ensures count < 64 ==> n == count
  {
    count % 64
  }

  class Driver {
    const image: array<Byte>
    const fatTable: array<Byte>
    const dirTableBuf: array<Byte>
    const clusterBuf: array<Byte>
    /** The cluster that every write_clusters call so far wrote. */
    ghost var log: seq<DiskWrite>

    predicate Valid() {
      && image.Length == 0x40_0000
      && fatTable.Length == dirTableBuf.Length == clusterBuf.Length == 2048
      && image != fatTable && image != dirTableBuf && image != clusterBuf
      && fatTable != dirTableBuf && fatTable != clusterBuf && dirTableBuf != clusterBuf
    }

    ghost function Disk(): Disk
      requires Valid()
      reads image
    {
      Clusters(image[..])
    }

    ghost function Cached(): FatTable
      requires Valid()
      reads fatTable
    {
      DecodeFat(fatTable[..])
    }

    ghost function TableBuf(): Table
      requires Valid()
      reads dirTableBuf
    {
      DecodeTable(dirTableBuf[..])
    }

    /** The cached FAT is the one on the disk. */
    ghost predicate Mounted()
      requires Valid()
      reads image, fatTable
    {
      Cached() == Fat(Disk())
    }

    /** A driver in the state the kernel starts it in, over the given image. */
    constructor (image: array<Byte>)
      requires image.Length == 0x40_0000
      ensures Valid() && this.image == image
      ensures fresh(fatTable) && fresh(dirTableBuf) && fresh(clusterBuf)
      ensures fatTable[..] == dirTableBuf[..] == clusterBuf[..] == ZERO_CLUSTER
      ensures log == []
    {
      this.image := image;
      fatTable := new Byte[2048](_ => 0);
      dirTableBuf := new Byte[2048](_ => 0);
      clusterBuf := new Byte[2048](_ => 0);
      log := [];
    }

    /** read_clusters; its block count is 4 * count cut to 8 bits. */
    method ReadClusters(ptr: array<Byte>, cluster: DWord, count: Byte)
      requires Valid() && ptr != image
      requires Reached(cluster) + Counted(count) <= 2048 && 2048 * Counted(count) <= ptr.Length
      modifies ptr
      ensures var c, n := Reached(cluster), Counted(count);
              ptr[..] == Patch(old(ptr[..]), 0, image[2048 * c..2048 * (c + n)])
    {
      ghost var c, n: nat := Reached(cluster), Counted(count);
      var lba: nat, blocks: Byte := ClusterToLba(cluster), 4 * count % 0x100;
      assert lba == 4 * c && blocks == 4 * n;
      BlockDisk.ReadBlocks(image, ptr, lba, blocks);
    }

    /** write_clusters, likewise. */
    method WriteClusters(ptr: array<Byte>, cluster: DWord, count: Byte)
      requires Valid() && ptr != image
      requires Reached(cluster) + Counted(count) <= 2048 && 2048 * Counted(count) <= ptr.Length
      modifies image
      ensures image[..] == Patch(old(image[..]), 2048 * Reached(cluster), ptr[..2048 * Counted(count)])
    {
      ghost var before, data := image[..], ptr[..2048 * Counted(count)];
      ghost var c, n: nat := Reached(cluster), Counted(count);
      var lba: nat, blocks: Byte := ClusterToLba(cluster), 4 * count % 0x100;
      assert lba == 4 * c && blocks == 4 * n;
      BlockDisk.WriteBlocks(image, ptr, lba, blocks);
      assert image[..] == Patch(before, 2048 * c, data);
    }

    /** read_clusters of one cluster, as in every call the driver makes. */
    method LoadCluster(ptr: array<Byte>, cluster: DWord)
      requires Valid() && ptr != image && ptr.Length == 2048
      requires Reached(cluster) < 2048
      modifies ptr
      ensures ptr[..] == Disk()[Reached(cluster)]
    {
      ReadClusters(ptr, cluster, 1);
      ClusterBytes(image[..], Reached(cluster));
    }

    /** write_clusters of one cluster, as in every call the driver makes. */
    method SaveCluster(ptr: array<Byte>, cluster: DWord)
      requires Valid() && ptr != image && ptr.Length == 2048
      requires Reached(cluster) < 2048
      modifies image, this`log
      ensures Disk() == old(Disk())[Reached(cluster) := ptr[..]]
      ensures log == old(log) + [DiskWrite(Reached(cluster), ptr[..])]
    {
      ghost var before, data := image[..], ptr[..];
      assert ptr[..2048] == data;
      WriteClusters(ptr, cluster, 1);
      ClusterStore(before, Reached(cluster), data);
      log := log + [DiskWrite(Reached(cluster), ptr[..])];
    }

    // ---- scanning the buffers ----

    method FindEmptyCluster() returns (r: MapIndex)
      requires Valid()
      ensures r == if FreeList(Cached()) == [] then 0 else FreeList(Cached())[0]
    {
      for i := 2 to 512
        invariant FreeFrom(Cached(), i) == FreeList(Cached())
      {
        var v := FatValue(i);
        if v == EMPTY {
          return i;
        }
      }
      return 0;
    }

    method FindNextEmptyCluster(i: nat) returns (r: MapIndex)
      requires Valid()
      ensures i < 2 || i >= 512 ==> r == 0
      ensures 2 <= i < 512 ==>
        var free := FreeFrom(Cached(), After(i)); r == if free == [] then 0 else free[0]
    {
      if i >= 512 || i < 2 {
        return 0;
      }
      for j := i + 1 to 512
        invariant FreeFrom(Cached(), j) == FreeFrom(Cached(), After(i))
      {
        var v := FatValue(j);
        if v == EMPTY {
          return j;
        }
      }
      return 0;
    }

    method FatValue(i: MapIndex) returns (v: DWord)
      requires Valid()
      ensures v == Cached()[i]
    {
      FatEntry(fatTable[..], i);
      v := U32(fatTable[4 * i], fatTable[4 * i + 1], fatTable[4 * i + 2], fatTable[4 * i + 3]);
    }

    method StoreFat(i: MapIndex, v: DWord)
      requires Valid()
      modifies fatTable
      ensures Cached() == old(Cached())[i := v]
    {
      ghost var before := fatTable[..];
      var q := Bytes4(v);
      fatTable[4 * i], fatTable[4 * i + 1], fatTable[4 * i + 2], fatTable[4 * i + 3] := q[0], q[1], q[2], q[3];
      assert fatTable[..] == Patch(before, 4 * i, q);
      FatBytesRoundTrip(before);
      FatStore(DecodeFat(before), i, v);
      FatRoundTrip(DecodeFat(before)[i := v]);
    }

    // ---- requests ----

    /** The caller's buffer overlaps neither the disk nor the driver's state. */
    predicate Apart(buf: array<Byte>) {
      buf != image && buf != fatTable && buf != dirTableBuf && buf != clusterBuf
    }

    /** create_fat32, over whatever the buffers hold. */
    method CreateFat32()
      requires Valid()
      modifies image, fatTable, clusterBuf, dirTableBuf, this`log
      ensures log == old(log) + CreateLog(old(Cached()), old(dirTableBuf[..]), old(clusterBuf[..]))
      ensures Disk() == Replay(old(Disk()), CreateLog(old(Cached()), old(dirTableBuf[..]), old(clusterBuf[..])))
      ensures Mounted() && Signed(Disk())
    {
      ghost var d, c, f, t := Disk(), clusterBuf[..], Cached(), dirTableBuf[..];
      MemCpy(clusterBuf, 0, Signature(), 512);
      StoreFat(0, CLUSTER_0_VALUE);
      StoreFat(1, CLUSTER_1_VALUE);
      StoreFat(2, END_OF_FILE);
      InitDirectoryTable(dirTableBuf, RootName(), ROOT);
      assert Signature()[..512] == Signature();
      SaveCluster(clusterBuf, 0);
      FlushFat();
      SaveCluster(dirTableBuf, ROOT);
      CreateEnd(d, f, t, c, old(log));
    }

    method IsEmptyStorage() returns (r: bool)
      requires Valid()
      ensures r == !Signed(Disk())
    {
      var buf := new Byte[512];
      BlockDisk.ReadBlocks(image, buf, 0, 1);
      ClusterBytes(image[..], 0);
      assert buf[..512] == Disk()[0][..512];
      var c := MemCmp(buf[..], Signature(), 512);
      assert buf[..][..512] == buf[..512] && Signature()[..512] == Signature();
      r := c != 0;
    }

    /** Mounts the disk: formats it if the boot sector is not signed, else loads its FAT and writes nothing. */
    method Initialize()
      requires Valid()
      modifies image, fatTable, clusterBuf, dirTableBuf, this`log
      ensures Mounted() && Signed(Disk())
      ensures old(Signed(Disk())) ==> Disk() == old(Disk()) && log == old(log)
      ensures !old(Signed(Disk())) ==>
        var created := CreateLog(old(Cached()), old(dirTableBuf[..]), old(clusterBuf[..]));
        log == old(log) + created && Disk() == Replay(old(Disk()), created)
    {
      var empty := IsEmptyStorage();
      if empty {
        CreateFat32();
      } else {
        LoadCluster(fatTable, 1);
        LoadCluster(dirTableBuf, ROOT);
      }
    }

    /** Copies 512 bytes of the named entry's first cluster into buf. */
    method Read(req: Request, buf: array<Byte>) returns (code: int)
      requires Valid() && Apart(buf)
      requires Reached(req.parent) < 2048
      requires ReadCode(Disk(), req) == 0 ==> ReadCluster(Disk(), req) < 2048 && 512 <= buf.Length
      modifies dirTableBuf, clusterBuf, buf
      ensures code == ReadCode(Disk(), req)
      ensures code == 0 ==> buf[..] == Patch(old(buf[..]), 0, Disk()[ReadCluster(Disk(), req)][..512])
      ensures code != 0 ==> buf[..] == old(buf[..])
    {
      LoadCluster(dirTableBuf, req.parent);
      var isDir := IsDirectoryTable(dirTableBuf);
      if req.parent < 2 || req.parent > 512 || !isDir {
        return -1;
      }
      var i := FindNamed(req, dirTableBuf);
      if i == 64 {
        return 3;
      }
      var e := LoadEntry(dirTableBuf, i);
      if req.size < e.filesize {
        return 2;
      }
      LoadCluster(clusterBuf, e.clusterLow);
      MemCpy(buf, 0, clusterBuf[..], 512);
      return 0;
    }

    method Write(req: Request, buf: seq<Byte>) returns (code: int)
      requires Valid() && Mounted()
      requires Reached(req.parent) < 2048
      requires Accepted(Disk(), req) && req.size > 0 ==> 2048 * |Chosen(Fat(Disk()), req.size)| <= |buf|
      modifies image, fatTable, dirTableBuf, clusterBuf, this`log
      ensures code == WriteCode(old(Disk()), req)
      ensures log == old(log) + WriteLog(old(Disk()), req, buf)
      ensures Disk() == WriteDisk(old(Disk()), req, buf)
      ensures Mounted()
    {
      ghost var d, before := Disk(), log;
      WriteRejected(d, req, buf, before);
      var val := LoadParent(req);
      if val != 0 {
        return val;
      }
      var cluster := FindEmptyCluster();
      var slot := FindEmptyEntry(dirTableBuf);
      FreeFromExact(Fat(d), 2);
      if cluster == 0 || slot == 0 {
        return -1;
      }
      StoreParent(req, cluster, slot);
      WriteEnd(d, req, buf, before, Disk()[req.parent], Disk());
      code := StoreContent(req, cluster, buf);
    }

    /** Reads the parent's table into dirTableBuf and validates the request against it. */
    method LoadParent(req: Request) returns (val: int)
      requires Valid() && Reached(req.parent) < 2048
      modifies dirTableBuf
      ensures val == ValidateCode(Disk(), req)
      ensures val == 0 ==> 2 <= req.parent <= 512 && dirTableBuf[..] == Disk()[req.parent]
    {
      LoadCluster(dirTableBuf, req.parent);
      val := ValidateWrite(req, dirTableBuf);
    }

    /** Puts the new entry into the parent's table, which dirTableBuf holds, and stores the table. */
    method StoreParent(req: Request, cluster: MapIndex, slot: nat)
      requires Valid() && Mounted() && slot < 64
      requires 2 <= req.parent <= 512 && dirTableBuf[..] == Disk()[req.parent]
      modifies image, dirTableBuf, this`log
      ensures var t := TableOf(old(Disk()), req.parent);
              TableOf(Disk(), req.parent) == t[slot := NewEntry(t[slot], req, cluster)]
      ensures Disk() == old(Disk())[req.parent := Disk()[req.parent]]
      ensures log == old(log) + [DiskWrite(req.parent, Disk()[req.parent])]
      ensures Mounted()
    {
      WriteEntry(req, dirTableBuf, cluster, slot);
      SaveCluster(dirTableBuf, req.parent);
    }

    /** What write does once the parent's table is stored. */
    method StoreContent(req: Request, cluster: MapIndex, buf: seq<Byte>) returns (code: int)
      requires Valid() && Mounted() && FreeList(Cached()) != [] && cluster == FreeList(Cached())[0]
      requires req.size > 0 ==> 2048 * |Chosen(Cached(), req.size)| <= |buf|
      modifies image, fatTable, dirTableBuf, clusterBuf, this`log
      ensures code == if Suffices(old(Cached()), req.size) then 0 else -1
      ensures var done := ContentLog(old(Disk()), req, buf);
              log == old(log) + done && Disk() == Replay(old(Disk()), done)
      ensures Mounted()
    {
      FreeFromExact(Cached(), 2);
      if req.size == 0 {
        WriteFolder(req, cluster);
        code := 0;
      } else {
        code := WriteFile(req.size, buf, cluster);
      }
    }

    /** The folder branch of write. */
    method WriteFolder(req: Request, cluster: MapIndex)
      requires Valid() && Mounted() && 2 <= cluster
      modifies image, fatTable, dirTableBuf, this`log
      ensures var done := FolderLog(old(Disk()), cluster, req.name, req.parent);
              log == old(log) + done && Disk() == Replay(old(Disk()), done)
      ensures Mounted()
    {
      LoadCluster(dirTableBuf, cluster);
      InitDirectoryTable(dirTableBuf, req.name, req.parent);
      SaveCluster(dirTableBuf, cluster);
      StoreFat(cluster, END_OF_FILE);
      FlushFat();
      FolderEnd(old(Disk()), cluster, req.name, req.parent, old(log));
    }

    /** The file branch of write. */
    method WriteFile(size: DWord, buf: seq<Byte>, first: MapIndex) returns (code: int)
      requires Valid() && Mounted()
      requires size > 0 && FreeList(Cached()) != [] && first == FreeList(Cached())[0]
      requires 2048 * |Chosen(Cached(), size)| <= |buf|
      modifies image, fatTable, clusterBuf, this`log
      ensures code == if Suffices(old(Cached()), size) then 0 else -1
      ensures var f := old(Cached());
              var done := ChainLog(f, Chosen(f, size), Chunks(buf, |Chosen(f, size)|), Suffices(f, size));
              log == old(log) + done && Disk() == Replay(old(Disk()), done)
      ensures Mounted()
    {
      ghost var f, cs, before, d := Cached(), Chosen(Cached(), size), log, Disk();
      ghost var data := Chunks(buf, |cs|);
      ChosenStart(f, size, cs, first);
      NoRound(d, f, cs, data, 0, before);
      ghost var l, e := log, Disk();
      var remaining: int := size;
      var cluster := first;
      var n := 0;
      while remaining > 0
        invariant 0 <= n < |cs| && cluster == cs[n] && remaining == size - 2048 * n && remaining > 0
        invariant InRound(d, f, cs, data, n, before, log, Disk())
        invariant Mounted() && Cached() == Linked(f, cs, n)
      {
        var temp := cluster;
        l, e := log, Disk();
        LastDecides(f, size, cs, n);
        StoreChunk(buf, n, |cs|, temp);
        if remaining <= 2048 {
          EndChunk(temp, d, f, cs, data, n, before, l, e);
          break;
        }
        cluster := NextInChain(cluster, f, size, cs, n);
        if cluster == 0 {
          LastRound(d, f, cs, data, n, before, l, e, false, log, Disk());
          return -1;
        }
        LinkChunk(temp, cluster, d, f, cs, data, n, before, l, e);
        remaining := remaining - 2048;
        n := n + 1;
      }
      return 0;
    }

    /** The end of a round that goes on: the cluster just stored is linked to the next one. */
    method LinkChunk(temp: MapIndex, next: MapIndex, ghost d: Disk, ghost f: FatTable, ghost cs: seq<MapIndex>,
                     ghost data: seq<Cluster>, ghost n: nat, ghost before: seq<DiskWrite>, ghost l: seq<DiskWrite>,
                     ghost e: Disk)
      requires Valid() && n + 1 < |cs| == |data| && temp == cs[n] && next == cs[n + 1]
      requires InRound(d, f, cs, data, n, before, l, e) && Cached() == Linked(f, cs, n)
      requires log == l + [DiskWrite(temp, data[n])] && Disk() == e[temp := data[n]]
      modifies image, fatTable, this`log
      ensures InRound(d, f, cs, data, n + 1, before, log, Disk())
      ensures Mounted() && Cached() == Linked(f, cs, n + 1)
    {
      StoreFat(temp, next);
      assert Cached() == Linked(f, cs, n + 1);
      FlushFat();
      NextRound(d, f, cs, data, n, before, l, e, log, Disk());
    }

    /** The last round of a file that fits: the cluster just stored ends the chain. The FAT is flushed behind the
        loop. */
    method EndChunk(temp: MapIndex, ghost d: Disk, ghost f: FatTable, ghost cs: seq<MapIndex>,
                    ghost data: seq<Cluster>, ghost n: nat, ghost before: seq<DiskWrite>, ghost l: seq<DiskWrite>,
                    ghost e: Disk)
      requires Valid() && n + 1 == |cs| == |data| && temp == cs[n]
      requires InRound(d, f, cs, data, n, before, l, e) && Cached() == Linked(f, cs, n)
      requires log == l + [DiskWrite(temp, data[n])] && Disk() == e[temp := data[n]]
      modifies image, fatTable, this`log
      ensures log == before + ChainLog(f, cs, data, true) && Disk() == Replay(d, ChainLog(f, cs, data, true))
      ensures Mounted()
    {
      StoreFat(temp, END_OF_FILE);
      FlushFat();
      LastRound(d, f, cs, data, n, before, l, e, true, log, Disk());
    }

    /** findNextEmptyCluster, called at the tail of a chain of which n links are in the cached FAT. */
    method NextInChain(tail: MapIndex, ghost f: FatTable, ghost size: nat, ghost cs: seq<MapIndex>, ghost n: nat)
      returns (next: MapIndex)
      requires Valid() && FreeList(f) != [] && size > 0 && cs == Chosen(f, size)
      requires n < |cs| && tail == cs[n] && 2048 * (n + 1) < size
      requires Cached() == Linked(f, cs, n)
      ensures next == 0 ==> !Suffices(f, size) && n == |cs| - 1
      ensures next != 0 ==> n + 1 < |cs| && next == cs[n + 1]
    {
      ChosenTakeable(f, size);
      RoundDecides(f, size, n);
      NextFree(f, cs, n);
      ghost var more := FreeList(f)[n + 1..];
      assert FreeFrom(Cached(), After(tail)) == more;
      next := FindNextEmptyCluster(tail);
      assert next == if more == [] then 0 else more[0];
    }

    /** Stores cluster n of the content's m and reloads the FAT from the disk. */
    method StoreChunk(buf: seq<Byte>, n: nat, ghost m: nat, cluster: MapIndex)
      requires Valid() && 2 <= cluster && n < m && 2048 * m <= |buf|
      modifies image, fatTable, clusterBuf, this`log
      ensures Disk() == old(Disk())[cluster := Chunks(buf, m)[n]]
      ensures log == old(log) + [DiskWrite(cluster, Chunks(buf, m)[n])]
      ensures Mounted() && Cached() == old(Fat(Disk()))
    {
      ChunkBytes(buf, m, n);
      LoadCluster(clusterBuf, cluster);
      MemCpy(clusterBuf, 0, buf[2048 * n..2048 * n + 2048], 2048);
      assert clusterBuf[..] == Chunks(buf, m)[n];
      SaveCluster(clusterBuf, cluster);
      LoadCluster(fatTable, 1);
    }

    method FlushFat()
      requires Valid()
      modifies image, this`log
      ensures Disk() == old(Disk())[1 := EncodeFat(Cached())] && log == old(log) + [FatWrite(Cached())]
      ensures Mounted()
    {
      FatBytesRoundTrip(fatTable[..]);
      SaveCluster(fatTable, 1);
    }
  }

  method LoadEntry(entry: array<Byte>, i: nat) returns (e: Entry)
    requires entry.Length == 2048 && i < 64
    ensures e == DecodeTable(entry[..])[i]
  {
    TableEntry(entry[..], i);
    e := DecodeEntry(entry[32 * i..32 * i + 32]);
  }

  method FindEmptyEntry(entry: array<Byte>) returns (r: nat)
    requires entry.Length == 2048
    ensures r == FreeSlot(DecodeTable(entry[..]))
  {
    ghost var t := DecodeTable(entry[..]);
    for i := 1 to 64
      invariant forall j | 1 <= j < i :: Live(t[j])
    {
      var e := LoadEntry(entry, i);
      if e.userAttribute != NOT_EMPTY {
        return i;
      }
    }
    return 0;
  }

  method IsExist(req: Request, entry: array<Byte>) returns (r: nat)
    requires entry.Length == 2048
    ensures var h := FirstClash(DecodeTable(entry[..]), req); r == if h == 64 then 0 else h
  {
    ghost var t := DecodeTable(entry[..]);
    for i := 0 to 64
      invariant forall j | 0 <= j < i :: !Clashes(t[j], req)
    {
      var e := LoadEntry(entry, i);
      assert e.name[..8] == e.name && req.name[..8] == req.name;
      assert e.ext[..3] == e.ext && req.ext[..3] == req.ext;
      if req.size == 0 {
        var c := MemCmp(e.name, req.name, 8);
        if c == 0 {
          return i;
        }
      } else {
        var c := MemCmp(e.name, req.name, 8);
        if c == 0 {
          c := MemCmp(e.ext, req.ext, 3);
          if c == 0 {
            return i;
          }
        }
      }
    }
    return 0;
  }

  method IsDirectoryTable(entry: array<Byte>) returns (r: bool)
    requires entry.Length == 2048
    ensures r == IsDirectory(DecodeTable(entry[..]))
  {
    var e := LoadEntry(entry, 0);
    if e.userAttribute != NOT_EMPTY || e.filesize != 0 {
      r := false;
    } else {
      r := true;
    }
  }

  /** Puts the 32 bytes of a packed entry into slot i of a table buffer. */
  method StoreEntry(entry: array<Byte>, i: nat, e: Entry)
    requires entry.Length == 2048 && i < 64
    modifies entry
    ensures DecodeTable(entry[..]) == old(DecodeTable(entry[..]))[i := e]
  {
    ghost var before := entry[..];
    var b := EncodeEntry(e);
    assert b[..32] == b;
    MemCpy(entry, 32 * i, b, 32);
    TableBytesRoundTrip(before);
    EntryStore(DecodeTable(before), i, e);
    TableRoundTrip(DecodeTable(before)[i := e]);
  }

  method WriteEntry(req: Request, entry: array<Byte>, cluster: DWord, slot: nat)
    requires entry.Length == 2048 && slot < 64
    modifies entry
    ensures var t := DecodeTable(old(entry[..]));
            DecodeTable(entry[..]) == t[slot := NewEntry(t[slot], req, cluster)]
  {
    var e := LoadEntry(entry, slot);
    e := e.(name := req.name);
    e := e.(userAttribute := NOT_EMPTY);
    e := e.(clusterLow := cluster % 0x1_0000);
    e := e.(clusterHigh := cluster / 0x1_0000);
    e := e.(filesize := req.size);
    if req.size == 0 {
      e := e.(attribute := SUBDIRECTORY);
    } else {
      e := e.(attribute := 0);
      e := e.(ext := req.ext);
    }
    StoreEntry(entry, slot, e);
  }

  method InitDirectoryTable(dirTable: array<Byte>, name: Name, parent: DWord)
    requires dirTable.Length == 2048
    modifies dirTable
    ensures dirTable[..] == HeadedTable(old(dirTable[..]), name, parent)
  {
    var e := LoadEntry(dirTable, 0);
    e := e.(name := name);
    e := e.(attribute := SUBDIRECTORY);
    e := e.(userAttribute := NOT_EMPTY);
    e := e.(clusterLow := parent / 0x1_0000);
    e := e.(clusterHigh := parent % 0x1_0000);
    e := e.(filesize := 0);
    StoreEntry(dirTable, 0, e);
    TableBytesRoundTrip(dirTable[..]);
  }

  method ValidateWrite(req: Request, entry: array<Byte>) returns (code: int)
    requires entry.Length == 2048
    ensures code == ValidateTable(DecodeTable(entry[..]), req)
  {
    var isDir := IsDirectoryTable(entry);
    if req.parent < 2 || req.parent > 512 || !isDir {
      return 2;
    }
    var found := IsExist(req, entry);
    if found > 0 {
      return 1;
    }
    return 0;
  }

  /** The search loop of read. */
  method FindNamed(req: Request, entry: array<Byte>) returns (i: nat)
    requires entry.Length == 2048
    ensures i == FirstNamed(DecodeTable(entry[..]), req.name, req.ext)
  {
    ghost var t := DecodeTable(entry[..]);
    i := 0;
    while i < 64
      invariant i <= 64 && forall j | 0 <= j < i :: !Named(t[j], req.name, req.ext)
    {
      var e := LoadEntry(entry, i);
      assert e.name[..8] == e.name && req.name[..8] == req.name;
      assert e.ext[..3] == e.ext && req.ext[..3] == req.ext;
      var c := MemCmp(e.name, req.name, 8);
      if c == 0 {
        c := MemCmp(e.ext, req.ext, 3);
        if c == 0 {
          break;
        }
      }
      i := i + 1;
    }
  }
}
