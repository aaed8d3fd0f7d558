/** The disk after a whole write: contents, chain, allocation. From any mounted disk, holes in the FAT included. */
module FatEffect {
  import opened Bytes
  import opened Layout
  import opened FatSpec
  import opened FatChains
  import opened FatSafety
  import opened FatFiles

  // ---- replaying the log of a write ----

  /** Clusters 0 to n - 1 of the content are in their places. */
  ghost predicate Stored(e: Disk, cs: seq<MapIndex>, data: seq<Cluster>, n: nat) {
    n <= |cs| == |data| && forall j | 0 <= j < n :: e[cs[j]] == data[j]
  }

  lemma {:induction false} StoreNext(e: Disk, cs: seq<MapIndex>, data: seq<Cluster>, n: nat)
    requires Ascending(cs) && n < |cs| && Stored(e, cs, data, n)
    ensures Stored(e[cs[n] := data[n]], cs, data, n + 1)
  {
  }

  lemma {:induction false} StoreFatKeeps(
      e: Disk, f: FatTable, cs: seq<MapIndex>, data: seq<Cluster>, n: nat, g: FatTable)
    requires Takeable(f, cs) && Stored(e, cs, data, n)
    ensures Stored(e[1 := EncodeFat(g)], cs, data, n) && Fat(e[1 := EncodeFat(g)]) == g
  {
    FatRoundTrip(g);
  }

  /** The disk after n rounds of the file loop, store by store. */
  ghost function AfterRounds(d: Disk, f: FatTable, cs: seq<MapIndex>, data: seq<Cluster>, n: nat): Disk
    requires n < |cs| == |data|
  {
    if n == 0 then d
    else AfterRounds(d, f, cs, data, n - 1)[cs[n - 1] := data[n - 1]][1 := EncodeFat(Linked(f, cs, n))]
  }

  lemma {:induction false} RoundsReplay(d: Disk, f: FatTable, cs: seq<MapIndex>, data: seq<Cluster>, n: nat)
    requires n < |cs| == |data|
    ensures Replay(d, Rounds(f, cs, data, n)) == AfterRounds(d, f, cs, data, n)
  {
    if n > 0 {
      RoundsReplay(d, f, cs, data, n - 1);
      RoundReplay(d, f, cs, data, n);
    }
  }

  lemma {:induction false} RoundsStored(d: Disk, f: FatTable, cs: seq<MapIndex>, data: seq<Cluster>, n: nat)
    requires Takeable(f, cs) && f == Fat(d) && n < |cs| == |data|
    ensures Stored(AfterRounds(d, f, cs, data, n), cs, data, n)
    ensures Fat(AfterRounds(d, f, cs, data, n)) == Linked(f, cs, n)
  {
    if n > 0 {
      var e := AfterRounds(d, f, cs, data, n - 1);
      RoundsStored(d, f, cs, data, n - 1);
      StoreNext(e, cs, data, n - 1);
      StoreFatKeeps(e[cs[n - 1] := data[n - 1]], f, cs, data, n, Linked(f, cs, n));
    }
  }

  lemma {:induction false} ChainStored(
      d: Disk, f: FatTable, cs: seq<MapIndex>, data: seq<Cluster>, complete: bool, e: Disk)
    requires Takeable(f, cs) && f == Fat(d) && |data| == |cs| && e == Replay(d, ChainLog(f, cs, data, complete))
    ensures Stored(e, cs, data, |cs|)
    ensures Fat(e) == if complete then Closed(f, cs) else Linked(f, cs, |cs| - 1)
  {
    var n := |cs| - 1;
    var last := AfterRounds(d, f, cs, data, n);
    RoundsStored(d, f, cs, data, n);
    RoundsReplay(d, f, cs, data, n);
    ChainReplay(d, f, cs, data, n);
    StoreNext(last, cs, data, n);
    StoreFatKeeps(last[cs[n] := data[n]], f, cs, data, n + 1, Closed(f, cs));
  }

  lemma {:induction false} FolderStored(d: Disk, c: MapIndex, name: Name, parent: DWord)
    requires 2 <= c
    ensures var e := Replay(d, FolderLog(d, c, name, parent));
            Fat(e) == Fat(d)[c := END_OF_FILE] && e[c] == HeadedTable(d[c], name, parent)
  {
    FolderEnd(d, c, name, parent, []);
    FatRoundTrip(Fat(d)[c := END_OF_FILE]);
  }

  lemma {:induction false} WriteReplays(d: Disk, req: Request, buf: seq<Byte>)
    requires Accepted(d, req)
    ensures var p := ParentWrite(d, req);
            var d1 := d[p.cluster := p.data];
            Fat(d1) == Fat(d) && WriteDisk(d, req, buf) == Replay(d1, ContentLog(d1, req, buf))
  {
    var p := ParentWrite(d, req);
    FirstWrite(d, p, ContentLog(d[p.cluster := p.data], req, buf), []);
  }

  lemma {:induction false} WriteConfined(d: Disk, req: Request, buf: seq<Byte>)
    requires Accepted(d, req)
    ensures Confined(d, req, WriteDisk(d, req, buf))
  {
    var l := WriteLog(d, req, buf);
    EveryWriteConfined(d, req, buf, |l|);
    assert l[..|l|] == l;
  }

  /** The FAT that a write leaves. */
  function FinalFat(f: FatTable, size: nat): FatTable
    requires FreeList(f) != []
  {
    var cs := Chosen(f, size);
    if Suffices(f, size) then Closed(f, cs) else Linked(f, cs, |cs| - 1)
  }

  lemma {:induction false} FolderFat(f: FatTable)
    requires FreeList(f) != []
    ensures FinalFat(f, 0) == f[FreeList(f)[0] := END_OF_FILE]
  {
    ChosenTakeable(f, 0);
    assert Linked(f, Chosen(f, 0), 0) == f;
  }

  lemma {:induction false} ContentStored(d: Disk, f: FatTable, req: Request, buf: seq<Byte>, e: Disk)
    requires f == Fat(d) && FreeList(f) != [] && req.size > 0 && e == Replay(d, ContentLog(d, req, buf))
    ensures var cs := Chosen(f, req.size);
            Fat(e) == FinalFat(f, req.size) && Stored(e, cs, Chunks(buf, |cs|), |cs|)
  {
    var cs := Chosen(f, req.size);
    ChosenTakeable(f, req.size);
    ChainStored(d, f, cs, Chunks(buf, |cs|), Suffices(f, req.size), e);
  }

  lemma {:induction false} FileWritten(d: Disk, req: Request, buf: seq<Byte>)
    requires Accepted(d, req) && req.size > 0
    ensures var e := WriteDisk(d, req, buf);
            var cs := Chosen(Fat(d), req.size);
            && Fat(e) == FinalFat(Fat(d), req.size)
            && Stored(e, cs, Chunks(buf, |cs|), |cs|)
  {
    var p := ParentWrite(d, req);
    WriteReplays(d, req, buf);
    ContentStored(d[p.cluster := p.data], Fat(d), req, buf, WriteDisk(d, req, buf));
  }

  /** piece is cluster number k of the buffer. */
  predicate PieceOf(buf: seq<Byte>, k: nat, piece: Cluster) {
    2048 * k + 2048 <= |buf| && piece == buf[2048 * k..2048 * k + 2048]
  }

  /** Each chosen cluster, even of a file that runs out of clusters midway, holds its part of the buffer. */
  lemma {:induction false} ClusterWritten(
      d: Disk, req: Request, buf: seq<Byte>, cs: seq<MapIndex>, k: nat, piece: Cluster)
    requires Accepted(d, req) && req.size > 0 && cs == Chosen(Fat(d), req.size)
    requires k < |cs| && 2048 * |cs| <= |buf| && PieceOf(buf, k, piece)
    ensures WriteDisk(d, req, buf)[cs[k]] == piece
  {
    FileWritten(d, req, buf);
    ChunkBytes(buf, |cs|, k);
  }

  lemma {:induction false} FolderWritten(d: Disk, req: Request, buf: seq<Byte>)
    requires Accepted(d, req) && req.size == 0
    ensures var e := WriteDisk(d, req, buf);
            var c := FreeList(Fat(d))[0];
            && Fat(e) == FinalFat(Fat(d), 0)
            && e[c] == HeadedTable(if c == req.parent then ParentWrite(d, req).data else d[c], req.name, req.parent)
  {
    var p := ParentWrite(d, req);
    WriteReplays(d, req, buf);
    ChosenTakeable(Fat(d), 0);
    FolderFat(Fat(d));
    FolderStored(d[p.cluster := p.data], FreeList(Fat(d))[0], req.name, req.parent);
  }

  /** The new folder's table: what its cluster held, with a header in slot 0. */
  lemma {:induction false} FolderTableWritten(d: Disk, req: Request, buf: seq<Byte>)
    requires Accepted(d, req) && req.size == 0
    ensures var c := FreeList(Fat(d))[0];
            c != req.parent ==>
              TableOf(WriteDisk(d, req, buf), c) == TableOf(d, c)[0 := Header(TableOf(d, c)[0], req.name, req.parent)]
  {
    var c := FreeList(Fat(d))[0];
    FolderWritten(d, req, buf);
    TableRoundTrip(TableOf(d, c)[0 := Header(TableOf(d, c)[0], req.name, req.parent)]);
  }

  /** If that is the parent's own cluster, the header goes over the parent's. */
  lemma {:induction false} FolderInParent(d: Disk, req: Request, buf: seq<Byte>, t: Table)
    requires Accepted(d, req) && req.size == 0 && FreeList(Fat(d))[0] == req.parent && t == ParentTable(d, req)
    ensures TableOf(WriteDisk(d, req, buf), req.parent) == t[0 := Header(t[0], req.name, req.parent)]
  {
    FolderWritten(d, req, buf);
    TableRoundTrip(t);
    TableRoundTrip(t[0 := Header(t[0], req.name, req.parent)]);
  }

  lemma {:induction false} FatWritten(d: Disk, req: Request, buf: seq<Byte>)
    requires Accepted(d, req)
    ensures Fat(WriteDisk(d, req, buf)) == FinalFat(Fat(d), req.size)
  {
    if req.size == 0 {
      FolderWritten(d, req, buf);
    } else {
      FileWritten(d, req, buf);
    }
  }

  /** Every disk write of the content goes to the FAT or a chosen cluster. */
  ghost predicate Touches(cs: seq<MapIndex>, w: DiskWrite) {
    w.cluster == 1 || w.cluster in cs
  }

  lemma {:induction false} RoundsTouch(f: FatTable, cs: seq<MapIndex>, data: seq<Cluster>, n: nat)
    requires n < |cs| == |data|
    ensures forall w | w in Rounds(f, cs, data, n) :: Touches(cs, w)
  {
    if n > 0 {
      RoundsTouch(f, cs, data, n - 1);
    }
  }

  lemma {:induction false} ChainTouches(f: FatTable, cs: seq<MapIndex>, data: seq<Cluster>, complete: bool)
    requires cs != [] && |data| == |cs|
    ensures forall w | w in ChainLog(f, cs, data, complete) :: Touches(cs, w)
  {
    RoundsTouch(f, cs, data, |cs| - 1);
  }

  lemma {:induction false} ContentTouches(d: Disk, req: Request, buf: seq<Byte>)
    requires FreeList(Fat(d)) != []
    ensures forall w | w in ContentLog(d, req, buf) :: Touches(Chosen(Fat(d), req.size), w)
  {
    var cs := Chosen(Fat(d), req.size);
    ChosenTakeable(Fat(d), req.size);
    if req.size > 0 {
      ChainTouches(Fat(d), cs, Chunks(buf, |cs|), Suffices(Fat(d), req.size));
    }
  }

  /** Other clusters than the FAT and the chosen ones are as the parent's disk write leaves them. */
  lemma {:induction false} UnchosenKept(d: Disk, req: Request, buf: seq<Byte>, c: ClusterNo)
    requires Accepted(d, req) && c != 1 && c !in Chosen(Fat(d), req.size)
    ensures WriteDisk(d, req, buf)[c] == if c == req.parent then ParentWrite(d, req).data else d[c]
  {
    var p := ParentWrite(d, req);
    var d1 := d[p.cluster := p.data];
    WriteReplays(d, req, buf);
    ContentTouches(d1, req, buf);
    OthersKept(d1, ContentLog(d1, req, buf), c);
  }

  /** The parent's own cluster is not one that the content goes to; sure to hold unless that cluster is free. */
  predicate ParentUnchosen(d: Disk, req: Request) {
    NotFree(Fat(d), req.parent) || req.parent !in Chosen(Fat(d), req.size)
  }

  /** Then the parent's table is what it was, with the new entry. */
  lemma {:induction false} ParentWritten(d: Disk, req: Request, buf: seq<Byte>)
    requires Accepted(d, req) && ParentUnchosen(d, req)
    ensures TableOf(WriteDisk(d, req, buf), req.parent) == ParentTable(d, req)
    ensures req.parent !in Chosen(Fat(d), req.size)
  {
    ChosenTakeable(Fat(d), req.size);
    UnchosenKept(d, req, buf, req.parent);
    TableRoundTrip(ParentTable(d, req));
  }

  /** Nothing of the content goes over the parent's table, but for a cluster of it that is the same table. */
  predicate ParentSpared(d: Disk, req: Request, buf: seq<Byte>)
    requires Accepted(d, req)
  {
    var cs := Chosen(Fat(d), req.size);
    forall k | 0 <= k < |cs| && cs[k] == req.parent ::
      req.size > 0 && Chunks(buf, |cs|)[k] == ParentWrite(d, req).data
  }

  lemma {:induction false} UnchosenSpared(d: Disk, req: Request, buf: seq<Byte>)
    requires Accepted(d, req) && ParentUnchosen(d, req)
    ensures ParentSpared(d, req, buf) && req.parent !in Chosen(Fat(d), req.size)
  {
    ChosenTakeable(Fat(d), req.size);
  }

  lemma {:induction false} SameTable(c: Cluster, t: Table)
    ensures DecodeTable(c) == t <==> c == EncodeTable(t)
  {
    TableRoundTrip(t);
    TableBytesRoundTrip(c);
  }

  lemma {:induction false} PieceAt(e: Disk, cs: seq<MapIndex>, data: seq<Cluster>, c: MapIndex, piece: Cluster)
    requires Stored(e, cs, data, |cs|) && c in cs
    ensures e[c] == piece <==> forall k | 0 <= k < |cs| && cs[k] == c :: data[k] == piece
  {
    var k :| 0 <= k < |cs| && cs[k] == c;
    assert e[cs[k]] == data[k];
  }

  /** The entry of a file is in its parent's table afterwards if and only if the content spares that table. */
  lemma {:induction false} EntryStored(d: Disk, req: Request, buf: seq<Byte>)
    requires Accepted(d, req) && req.size > 0
    ensures TableOf(WriteDisk(d, req, buf), req.parent) == ParentTable(d, req) <==> ParentSpared(d, req, buf)
  {
    var e, cs := WriteDisk(d, req, buf), Chosen(Fat(d), req.size);
    if req.parent in cs {
      FileWritten(d, req, buf);
      PieceAt(e, cs, Chunks(buf, |cs|), req.parent, ParentWrite(d, req).data);
      SameTable(e[req.parent], ParentTable(d, req));
    } else {
      ParentWritten(d, req, buf);
    }
  }

  /** What a write that returns 0 does to the disk. */
  ghost predicate Grown(d: Disk, req: Request, e: Disk, cs: seq<MapIndex>)
    requires Accepted(d, req)
  {
    && Takeable(Fat(d), cs) && cs[0] == FreeList(Fat(d))[0]
    && |cs| == (if req.size == 0 then 1 else Need(req.size))
    && Fat(e) == Closed(Fat(d), cs)
    && TableOf(e, req.parent) == ParentTable(d, req)
    && (forall c: ClusterNo | c != 1 && c != req.parent && c !in cs :: e[c] == d[c])
    && (req.size == 0 ==>
        TableOf(e, cs[0]) == TableOf(d, cs[0])[0 := Header(TableOf(d, cs[0])[0], req.name, req.parent)])
  }

  /** It does so if and only if nothing goes over the parent's table, which is sure unless the parent's own
      cluster is free. */
  lemma {:induction false} WriteGrows(d: Disk, req: Request, buf: seq<Byte>)
    requires WriteCode(d, req) == 0
    ensures Grown(d, req, WriteDisk(d, req, buf), Chosen(Fat(d), req.size)) <==> ParentSpared(d, req, buf)
    ensures ParentUnchosen(d, req) ==> ParentSpared(d, req, buf)
  {
    var e := WriteDisk(d, req, buf);
    var cs := Chosen(Fat(d), req.size);
    ChosenTakeable(Fat(d), req.size);
    FatWritten(d, req, buf);
    forall c: ClusterNo | c != 1 && c != req.parent && c !in cs
      ensures e[c] == d[c]
    {
      UnchosenKept(d, req, buf, c);
    }
    if req.size == 0 {
      FolderGrows(d, req, buf, e, cs);
    } else {
      EntryStored(d, req, buf);
    }
    if ParentUnchosen(d, req) {
      UnchosenSpared(d, req, buf);
    }
  }

  lemma {:induction false} FolderGrows(d: Disk, req: Request, buf: seq<Byte>, e: Disk, cs: seq<MapIndex>)
    requires Accepted(d, req) && req.size == 0 && e == WriteDisk(d, req, buf) && cs == Chosen(Fat(d), 0)
    ensures cs == [FreeList(Fat(d))[0]] && (ParentSpared(d, req, buf) <==> cs[0] != req.parent)
    ensures cs[0] != req.parent ==>
      && TableOf(e, req.parent) == ParentTable(d, req)
      && TableOf(e, cs[0]) == TableOf(d, cs[0])[0 := Header(TableOf(d, cs[0])[0], req.name, req.parent)]
    ensures cs[0] == req.parent ==>
      TableOf(e, cs[0]) != TableOf(d, cs[0])[0 := Header(TableOf(d, cs[0])[0], req.name, req.parent)]
  {
    ChosenTakeable(Fat(d), 0);
    if cs[0] == req.parent {
      var slot := FreeSlot(TableOf(d, req.parent));
      FolderInParent(d, req, buf, ParentTable(d, req));
      assert Live(TableOf(e, req.parent)[slot]) && !Live(TableOf(d, req.parent)[slot]);
    } else {
      ParentWritten(d, req, buf);
      FolderTableWritten(d, req, buf);
    }
  }

  // ---- the content of a chain ----

  /** The bytes of a chain's clusters, in order. */
  function Content(d: Disk, cs: seq<MapIndex>): (b: seq<Byte>)
    ensures |b| == 2048 * |cs|
  {
    if cs == [] then [] else Content(d, cs[..|cs| - 1]) + d[cs[|cs| - 1]]
  }

  lemma {:induction false} ContentIsBuffer(d: Disk, cs: seq<MapIndex>, buf: seq<Byte>, n: nat)
    requires n <= |cs| && 2048 * |cs| <= |buf|
    requires Stored(d, cs, Chunks(buf, |cs|), |cs|)
    ensures Content(d, cs[..n]) == buf[..2048 * n]
  {
    if n > 0 {
      ContentIsBuffer(d, cs, buf, n - 1);
      assert cs[..n][..n - 1] == cs[..n - 1];
      ChunkBytes(buf, |cs|, n - 1);
      assert buf[..2048 * n] == buf[..2048 * (n - 1)] + buf[2048 * (n - 1)..2048 * n];
    }
  }

  lemma {:induction false} ContentKept(d: Disk, e: Disk, cs: seq<MapIndex>)
    requires forall k | 0 <= k < |cs| :: e[cs[k]] == d[cs[k]]
    ensures Content(e, cs) == Content(d, cs)
  {
    if cs != [] {
      var n := |cs| - 1;
      assert forall k | 0 <= k < n :: cs[..n][k] == cs[k];
      ContentKept(d, e, cs[..n]);
    }
  }

  lemma {:induction false} ClosedIsChain(f: FatTable, cs: seq<MapIndex>)
    requires Takeable(f, cs)
    ensures IsChain(Closed(f, cs), cs)
  {
    ClosedAt(f, cs);
  }

  /** A file write that returns 0 leaves a complete ascending chain of exactly ceil(size / 2048)
      clusters that holds the buffer's bytes. */
  lemma {:induction false} FileIsStored(d: Disk, req: Request, buf: seq<Byte>)
    requires req.size > 0 && WriteCode(d, req) == 0
    requires 2048 * Need(req.size) <= |buf|
    ensures var e := WriteDisk(d, req, buf);
            var cs := Chosen(Fat(d), req.size);
            && |cs| == Need(req.size) && Ascending(cs) && IsChain(Fat(e), cs)
            && Content(e, cs)[..req.size] == buf[..req.size]
  {
    FileWritten(d, req, buf);
    StoredFrom(Fat(d), req.size, buf, WriteDisk(d, req, buf));
  }

  lemma {:induction false} StoredFrom(f: FatTable, size: nat, buf: seq<Byte>, e: Disk)
    requires size > 0 && FreeList(f) != [] && Suffices(f, size) && 2048 * Need(size) <= |buf|
    requires Fat(e) == Closed(f, Chosen(f, size))
    requires Stored(e, Chosen(f, size), Chunks(buf, |Chosen(f, size)|), |Chosen(f, size)|)
    ensures var cs := Chosen(f, size);
            && |cs| == Need(size) && Ascending(cs) && IsChain(Fat(e), cs)
            && Content(e, cs)[..size] == buf[..size]
  {
    var cs := Chosen(f, size);
    ChosenTakeable(f, size);
    ClosedIsChain(f, cs);
    ContentIsBuffer(e, cs, buf, |cs|);
    assert cs[..|cs|] == cs;
    SamePrefix(Content(e, cs), buf, 2048 * |cs|, size);
  }

  lemma {:induction false} SamePrefix(a: seq<Byte>, b: seq<Byte>, m: nat, n: nat)
    requires n <= m <= |b| && a == b[..m]
    ensures a[..n] == b[..n]
  {
  }

  /** The walk from the new file's first cluster visits its chain and nothing else, however many steps it may take. */
  lemma {:induction false} FileIsWalked(d: Disk, req: Request, buf: seq<Byte>, n: nat)
    requires req.size > 0 && WriteCode(d, req) == 0 && Need(req.size) <= n
    ensures var cs := Chosen(Fat(d), req.size);
            |cs| == Need(req.size) && Visit(Fat(WriteDisk(d, req, buf)), cs[0], n) == cs
  {
    var cs := Chosen(Fat(d), req.size);
    ChosenTakeable(Fat(d), req.size);
    FileWritten(d, req, buf);
    ClosedIsChain(Fat(d), cs);
    VisitIsChain(Closed(Fat(d), cs), cs, n);
  }

  /** On 0 the chain is complete, and the new file is found through its parent's table if and only if the
      content spares that table. */
  lemma {:induction false} FileIsEntered(d: Disk, req: Request, buf: seq<Byte>)
    requires req.size > 0 && WriteCode(d, req) == 0
    ensures var e, cs, slot := WriteDisk(d, req, buf), Chosen(Fat(d), req.size), FreeSlot(TableOf(d, req.parent));
            && cs != [] && IsChain(Fat(e), cs)
            && (TableOf(e, req.parent) == ParentTable(d, req) <==> ParentSpared(d, req, buf))
            && (ParentSpared(d, req, buf) ==>
                Live(TableOf(e, req.parent)[slot]) && EntryCluster(TableOf(e, req.parent)[slot]) == cs[0])
            && (req.parent < 512 && Fat(d)[req.parent] != EMPTY ==>
                req.parent !in cs && FileAt(e, req.parent, slot, cs))
  {
    ChosenTakeable(Fat(d), req.size);
    FatWritten(d, req, buf);
    EntryStored(d, req, buf);
    ClosedIsChain(Fat(d), Chosen(Fat(d), req.size));
    assert EntryCluster(ParentTable(d, req)[FreeSlot(TableOf(d, req.parent))]) == FreeList(Fat(d))[0];
    if req.parent < 512 && Fat(d)[req.parent] != EMPTY {
      UnchosenSpared(d, req, buf);
      EnteredFrom(d, req, WriteDisk(d, req, buf));
    }
  }

  lemma {:induction false} EnteredFrom(d: Disk, req: Request, e: Disk)
    requires Accepted(d, req) && req.parent < 512 && Fat(d)[req.parent] != EMPTY
    requires Fat(e) == Closed(Fat(d), Chosen(Fat(d), req.size))
    requires TableOf(e, req.parent) == ParentTable(d, req)
    ensures FileAt(e, req.parent, FreeSlot(TableOf(d, req.parent)), Chosen(Fat(d), req.size))
    ensures req.parent !in Chosen(Fat(d), req.size)
  {
    var cs := Chosen(Fat(d), req.size);
    ChosenTakeable(Fat(d), req.size);
    ClosedIsChain(Fat(d), cs);
    ClosedAt(Fat(d), cs);
    assert EntryCluster(ParentTable(d, req)[FreeSlot(TableOf(d, req.parent))]) == cs[0];
  }
}
