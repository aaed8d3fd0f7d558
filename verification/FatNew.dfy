/** New file systems: what create_fat32 makes of a disk, and of a zeroed one in particular. */
module FatNew {
  import opened Bytes
  import opened Layout
  import opened FatSpec
  import opened FatChains
  import opened FatAlloc
  import opened FatTables

  /** e is what create_fat32 makes of the disk d, from a cached FAT f and a table buffer that holds t. */
  ghost predicate IsCreated(d: Disk, f: FatTable, t: Table, e: Disk) {
    && Signed(e)
    && Fat(e) == f[0 := CLUSTER_0_VALUE][1 := CLUSTER_1_VALUE][2 := END_OF_FILE]
    && TableOf(e, 2) == t[0 := Header(t[0], RootName(), ROOT)]
    && forall i: ClusterNo | i > 2 :: e[i] == d[i]
  }

  lemma {:induction false} CreateLogCreates(d: Disk, f: FatTable, t: Cluster, c: Cluster, e: Disk)
    requires e == Replay(d, CreateLog(f, t, c))
    ensures IsCreated(d, f, DecodeTable(t), e)
  {
    CreateEnd(d, f, t, c, []);
    WritesCreate(d, f, t, c, e);
  }

  lemma {:induction false} CreatedBoot(c: Cluster)
    ensures Patch(c, 0, Signature())[..512] == Signature()
  {
  }

  lemma {:induction false} WritesCreate(d: Disk, f: FatTable, t: Cluster, c: Cluster, e: Disk)
    requires var l := CreateLog(f, t, c); e == d[0 := l[0].data][1 := l[1].data][2 := l[2].data]
    ensures IsCreated(d, f, DecodeTable(t), e)
  {
    CreatedBoot(c);
    WritesDecode(d, Patch(c, 0, Signature()), f[0 := CLUSTER_0_VALUE][1 := CLUSTER_1_VALUE][2 := END_OF_FILE],
                 t, RootName(), ROOT, e);
  }

  lemma {:induction false} WritesDecode(
      d: Disk, x: Cluster, g: FatTable, t: Cluster, name: Name, parent: DWord, e: Disk)
    requires e == d[0 := x][1 := FatWrite(g).data][2 := HeadedTable(t, name, parent)]
    ensures e[0] == x && Fat(e) == g
    ensures TableOf(e, 2) == DecodeTable(t)[0 := Header(DecodeTable(t)[0], name, parent)]
    ensures forall i: ClusterNo | i > 2 :: e[i] == d[i]
  {
    FatRoundTrip(g);
    TableRoundTrip(DecodeTable(t)[0 := Header(DecodeTable(t)[0], name, parent)]);
  }

  /** A signed disk with a root directory, every other cluster free and blank. */
  ghost predicate IsNew(e: Disk) {
    && Signed(e)
    && Fat(e)[2] == END_OF_FILE && (forall i: MapIndex | 2 < i :: Fat(e)[i] == EMPTY)
    && IsNewTable(TableOf(e, 2), RootName(), ROOT)
    && (forall i: ClusterNo | 2 < i :: BlankEntries(TableOf(e, i)))
  }

  /** That is what create_fat32 makes of a zeroed disk, with the driver's own state zero too. */
  lemma {:induction false} CreatedNew(d: Disk, f: FatTable, t: Table, e: Disk)
    requires IsCreated(d, f, t, e)
    requires forall i: ClusterNo :: BlankEntries(TableOf(d, i))
    requires (forall i: MapIndex :: f[i] == EMPTY) && BlankEntries(t)
    ensures IsNew(e)
  {
    HeadedBlank(t, TableOf(e, 2), RootName(), ROOT);
    forall i: ClusterNo | 2 < i
      ensures BlankEntries(TableOf(e, i))
    {
      assert TableOf(e, i) == TableOf(d, i);
    }
  }

  /** The clusters from 3 up to n. */
  ghost function Between3And(n: nat): (r: set<nat>)
    requires 3 <= n
    ensures |r| == n - 3 && forall c: nat :: c in r <==> 3 <= c < n
  {
    if n == 3 then {} else Between3And(n - 1) + {n - 1}
  }

  lemma {:induction false} NewFreeCount(f: FatTable, n: nat)
    requires f[2] != EMPTY && (forall i: MapIndex | 2 < i :: f[i] == EMPTY) && n == |f|
    ensures |FreeSet(f)| == n - 3
  {
    FreeFrom3(f, Between3And(n));
  }

  lemma {:induction false} FreeFrom3(f: FatTable, r: set<nat>)
    requires f[2] != EMPTY && (forall i: MapIndex | 2 < i :: f[i] == EMPTY)
    requires forall c: nat :: c in r <==> 3 <= c < |f|
    ensures FreeSet(f) == r
  {
    forall c: nat
      ensures c in FreeSet(f) <==> c in r
    {
      if 2 < c < 512 {
        var i: MapIndex := c;
      }
    }
  }

  /** A new file system has 509 clusters to give: the first file or folder in its root, under any name but
      the root's own and the blank one, is written if and only if it needs no more. */
  lemma {:induction false} NewCapacity(e: Disk, req: Request)
    requires IsNew(e)
    requires req.parent == ROOT && req.name != RootName() && req.name != NO_NAME
    ensures Accepted(e, req) && (WriteCode(e, req) == 0 <==> Need(req.size) <= 509)
  {
    RootAdmits(TableOf(e, 2), req);
    NewFreeCount(Fat(e), |Fat(e)|);
    FreeListMembers(Fat(e));
  }

  lemma {:induction false} RootAdmits(t: Table, req: Request)
    requires IsNewTable(t, RootName(), ROOT)
    requires req.parent == ROOT && req.name != RootName() && req.name != NO_NAME
    ensures ValidateTable(t, req) == 0 && FreeSlot(t) == 1
  {
    assert !Live(t[1]);
    var h := FirstClash(t, req);
  }
}
