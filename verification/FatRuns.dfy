/** Whole runs of the mounted driver, failed writes included, from any disk with a signed boot sector. */
module FatRuns {
  import opened Bytes
  import opened Layout
  import opened FatSpec
  import opened FatChains
  import opened FatSafety
  import opened FatFiles
  import opened FatEffect
  import opened FatAlloc

  datatype Op = Initialize | Read(req: Request) | Write(req: Request, buf: seq<Byte>)

  lemma {:induction false} WriteKeepsBoot(d: Disk, req: Request, buf: seq<Byte>)
    ensures WriteDisk(d, req, buf)[0] == d[0]
  {
    if Accepted(d, req) {
      WriteConfined(d, req, buf);
    }
  }

  /** What one request does to the disk of the mounted driver. Initialising again reads the FAT that is
      already cached and writes nothing, because the boot sector stays signed (RunStaysSigned). */
  function Step(d: Disk, op: Op): Disk {
    match op
    case Initialize => d
    case Read(_) => d
    case Write(req, buf) => WriteDisk(d, req, buf)
  }

  function Run(d: Disk, ops: seq<Op>): Disk
    decreases |ops|
  {
    if ops == [] then d else Run(Step(d, ops[0]), ops[1..])
  }

  /** What an operation gives back: its code, and the block that a read copies. */
  datatype Outcome = Outcome(code: int, block: seq<Byte>)

  function OutcomeOf(d: Disk, op: Op): Outcome {
    match op
    case Initialize => Outcome(0, [])
    case Read(r) =>
      Outcome(ReadCode(d, r),
              if ReadCode(d, r) == 0 && ReadCluster(d, r) < 2048 then d[ReadCluster(d, r)][..512] else [])
    case Write(req, _) => Outcome(WriteCode(d, req), [])
  }

  function Outcomes(d: Disk, ops: seq<Op>): (r: seq<Outcome>)
    ensures |r| == |ops|
    decreases |ops|
  {
    if ops == [] then [] else [OutcomeOf(d, ops[0])] + Outcomes(Step(d, ops[0]), ops[1..])
  }

  lemma {:induction false} RunKeepsBoot(d: Disk, ops: seq<Op>)
    ensures Run(d, ops)[0] == d[0]
    decreases |ops|
  {
    if ops != [] {
      if ops[0].Write? {
        WriteKeepsBoot(d, ops[0].req, ops[0].buf);
      }
      RunKeepsBoot(Step(d, ops[0]), ops[1..]);
    }
  }

  /** A signed disk stays signed, so every later Initialize of a run leaves the disk and the cached FAT alone. */
  lemma {:induction false} RunStaysSigned(d: Disk, ops: seq<Op>)
    requires Signed(d)
    ensures Signed(Run(d, ops))
  {
    RunKeepsBoot(d, ops);
  }

  /** The operation is accepted as a write into one of these clusters. */
  predicate Hits(d: Disk, op: Op, cs: seq<MapIndex>) {
    op.Write? && Accepted(d, op.req) && op.req.parent in cs
  }

  /** No operation of the run is. */
  predicate Spared(d: Disk, ops: seq<Op>, cs: seq<MapIndex>)
    decreases |ops|
  {
    ops == [] || (!Hits(d, ops[0], cs) && Spared(Step(d, ops[0]), ops[1..], cs))
  }

  lemma {:induction false} StepKeepsFile(d: Disk, op: Op, dir: nat, idx: nat, cs: seq<MapIndex>)
    requires FileAt(d, dir, idx, cs) && !Hits(d, op, cs)
    ensures FileKept(d, Step(d, op), dir, idx, cs)
  {
    if op.Write? && Accepted(d, op.req) {
      WriteConfined(d, op.req, op.buf);
      ConfinedKeepsFile(d, op.req, WriteDisk(d, op.req, op.buf), dir, idx, cs);
    }
  }

  /** A complete chain outlives a run, with its bytes, if no request is accepted into its clusters. */
  lemma {:induction false} ChainSurvivesRun(d: Disk, ops: seq<Op>, cs: seq<MapIndex>)
    requires IsChain(Fat(d), cs) && Spared(d, ops, cs)
    ensures IsChain(Fat(Run(d, ops)), cs) && forall k | 0 <= k < |cs| :: Run(d, ops)[cs[k]] == d[cs[k]]
    decreases |ops|
  {
    if ops != [] {
      StepKeepsChain(d, ops[0], cs);
      ChainSurvivesRun(Step(d, ops[0]), ops[1..], cs);
    }
  }

  lemma {:induction false} StepKeepsChain(d: Disk, op: Op, cs: seq<MapIndex>)
    requires IsChain(Fat(d), cs) && !Hits(d, op, cs)
    ensures IsChain(Fat(Step(d, op)), cs) && forall k | 0 <= k < |cs| :: Step(d, op)[cs[k]] == d[cs[k]]
  {
    if op.Write? && Accepted(d, op.req) {
      WriteConfined(d, op.req, op.buf);
      ChainKept(Fat(d), Fat(WriteDisk(d, op.req, op.buf)), cs);
    }
  }

  ghost predicate LiveIn(d: Disk, c: MapIndex, i: nat) {
    2 <= c && Fat(d)[c] != EMPTY && i < 64 && Live(TableOf(d, c)[i])
  }

  /** Slots never become free again. */
  lemma {:induction false} RunKeepsLive(d: Disk, ops: seq<Op>, c: MapIndex, i: nat)
    requires LiveIn(d, c, i)
    ensures LiveIn(Run(d, ops), c, i)
    decreases |ops|
  {
    if ops != [] {
      StepKeepsLive(d, ops[0], c, i);
      RunKeepsLive(Step(d, ops[0]), ops[1..], c, i);
    }
  }

  lemma {:induction false} StepKeepsLive(d: Disk, op: Op, c: MapIndex, i: nat)
    requires LiveIn(d, c, i)
    ensures LiveIn(Step(d, op), c, i)
  {
    if op.Write? && Accepted(d, op.req) {
      WriteConfined(d, op.req, op.buf);
      SlotKept(d, op.req, WriteDisk(d, op.req, op.buf), c, i);
    }
  }

  lemma {:induction false} HitLeavesSlot(d: Disk, op: Op, cs: seq<MapIndex>) returns (c: MapIndex, i: nat)
    requires IsChain(Fat(d), cs) && Hits(d, op, cs)
    ensures c in cs && LiveIn(Step(d, op), c, i) && !LiveIn(d, c, i)
  {
    c, i := op.req.parent, FreeSlot(TableOf(d, op.req.parent));
    ChainKept(Fat(d), Fat(d), cs);
    ParentWritten(d, op.req, op.buf);
    WriteConfined(d, op.req, op.buf);
  }

  /** A complete file outlives a run, with its entry, its chain and its bytes, if and only if no request of
      the run is accepted with one of the file's own clusters as its parent. */
  lemma {:induction false} FileSurvivesRun(d: Disk, ops: seq<Op>, dir: nat, idx: nat, cs: seq<MapIndex>)
    requires FileAt(d, dir, idx, cs)
    ensures FileKept(d, Run(d, ops), dir, idx, cs) <==> Spared(d, ops, cs)
    decreases |ops|
  {
    if ops != [] {
      var d1 := Step(d, ops[0]);
      if Hits(d, ops[0], cs) {
        var c, i := HitLeavesSlot(d, ops[0], cs);
        RunKeepsLive(d1, ops[1..], c, i);
        ChainKept(Fat(d), Fat(d), cs);
      } else {
        StepKeepsFile(d, ops[0], dir, idx, cs);
        FileSurvivesRun(d1, ops[1..], dir, idx, cs);
      }
    }
  }

  /** No run ever makes a FAT whose walks could go round. */
  lemma {:induction false} WalksStayFinite(d: Disk, ops: seq<Op>)
    requires LinksAscend(Fat(d))
    ensures LinksAscend(Fat(Run(d, ops)))
    decreases |ops|
  {
    if ops != [] {
      if ops[0].Write? && Accepted(d, ops[0].req) {
        WriteConfined(d, ops[0].req, ops[0].buf);
      }
      WalksStayFinite(Step(d, ops[0]), ops[1..]);
    }
  }

  // ---- conservation ----

  /** No file write of the run runs out of clusters midway. */
  predicate Fits(d: Disk, ops: seq<Op>)
    decreases |ops|
  {
    ops == [] || (!(ops[0].Write? && RunsOut(d, ops[0].req)) && Fits(Step(d, ops[0]), ops[1..]))
  }

  /** The clusters taken by the successful requests of a run: one a folder, ceil(size / 2048) a file. */
  function TotalTaken(d: Disk, ops: seq<Op>): nat
    decreases |ops|
  {
    if ops == [] then 0
    else (if ops[0].Write? then Taken(ops[0].req, WriteCode(d, ops[0].req)) else 0)
         + TotalTaken(Step(d, ops[0]), ops[1..])
  }

  lemma {:induction false} ClustersConserved(d: Disk, ops: seq<Op>)
    requires Fits(d, ops)
    ensures |FreeSet(Fat(Run(d, ops)))| + TotalTaken(d, ops) == |FreeSet(Fat(d))|
    decreases |ops|
  {
    if ops != [] {
      if ops[0].Write? {
        FreeCountAfter(d, ops[0].req, ops[0].buf);
      }
      ClustersConserved(Step(d, ops[0]), ops[1..]);
    }
  }

  // ---- writing and reading back ----

  /** A read of name and ext in directory dir goes to slot idx, because no earlier slot matches. */
  ghost predicate Resolves(d: Disk, dir: nat, name: Name, ext: Ext, idx: nat) {
    2 <= dir < 512 && ResolvesIn(TableOf(d, dir), name, ext, idx)
  }

  ghost predicate ResolvesIn(t: Table, name: Name, ext: Ext, idx: nat) {
    1 <= idx < 64 && IsDirectory(t) && t[0].name != name && Live(t[idx]) && FirstNamed(t, name, ext) == idx
  }

  lemma {:induction false} FirstNamedIs(t: Table, name: Name, ext: Ext, i: nat)
    requires i < 64 && Named(t[i], name, ext) && forall j | 0 <= j < i :: !Named(t[j], name, ext)
    ensures FirstNamed(t, name, ext) == i
  {
  }

  /** While an entry is there under its name, no accepted request enters that name again. */
  lemma {:induction false} NewEntryDiffers(t: Table, req: Request, name: Name, ext: Ext, idx: nat)
    requires ValidateTable(t, req) == 0 && 1 <= idx < 64
    requires t[0].name != name && Named(t[idx], name, ext)
    ensures req.name != name || (req.size > 0 && req.ext != ext)
  {
    var h := FirstClash(t, req);
  }

  lemma {:induction false} EntryKeepsName(t: Table, e: Entry, slot: nat, name: Name, ext: Ext, idx: nat)
    requires slot < 64 && slot != idx < 64 && FirstNamed(t, name, ext) == idx
    requires !Named(e, name, ext)
    ensures FirstNamed(t[slot := e], name, ext) == idx
  {
    FirstNamedIs(t[slot := e], name, ext, idx);
  }

  lemma {:induction false} ParentKeepsName(d: Disk, req: Request, name: Name, ext: Ext, idx: nat)
    requires Accepted(d, req) && ResolvesIn(TableOf(d, req.parent), name, ext, idx)
    ensures ResolvesIn(ParentTable(d, req), name, ext, idx)
  {
    var t := TableOf(d, req.parent);
    var slot := FreeSlot(t);
    NewEntryDiffers(t, req, name, ext, idx);
    EntryKeepsName(t, NewEntry(t[slot], req, FreeList(Fat(d))[0]), slot, name, ext, idx);
  }

  lemma {:induction false} StepKeepsName(d: Disk, op: Op, dir: nat, name: Name, ext: Ext, idx: nat)
    requires Resolves(d, dir, name, ext, idx) && Fat(d)[dir] != EMPTY
    ensures Resolves(Step(d, op), dir, name, ext, idx) && Fat(Step(d, op))[dir] != EMPTY
  {
    if op.Write? && Accepted(d, op.req) {
      WriteConfined(d, op.req, op.buf);
      ConfinedKeepsName(d, op.req, WriteDisk(d, op.req, op.buf), dir, name, ext, idx);
    }
  }

  lemma {:induction false} ConfinedKeepsName(d: Disk, req: Request, e: Disk, dir: nat, name: Name, ext: Ext, idx: nat)
    requires Accepted(d, req) && Confined(d, req, e)
    requires Resolves(d, dir, name, ext, idx) && Fat(d)[dir] != EMPTY
    ensures Resolves(e, dir, name, ext, idx) && Fat(e)[dir] != EMPTY
  {
    if req.parent == dir {
      ParentTableKept(d, req, e);
      ParentKeepsName(d, req, name, ext, idx);
    } else {
      assert TableOf(e, dir) == TableOf(d, dir);
    }
  }

  lemma {:induction false} NameSurvivesRun(d: Disk, ops: seq<Op>, dir: nat, name: Name, ext: Ext, idx: nat)
    requires Resolves(d, dir, name, ext, idx) && Fat(d)[dir] != EMPTY
    ensures Resolves(Run(d, ops), dir, name, ext, idx)
    decreases |ops|
  {
    if ops != [] {
      StepKeepsName(d, ops[0], dir, name, ext, idx);
      NameSurvivesRun(Step(d, ops[0]), ops[1..], dir, name, ext, idx);
    }
  }

  lemma {:induction false} NewNameResolves(d: Disk, req: Request, buf: seq<Byte>)
    requires req.size > 0 && WriteCode(d, req) == 0 && req.parent < 512 && Fat(d)[req.parent] != EMPTY
    requires TableOf(d, req.parent)[0].name != req.name
    ensures Resolves(WriteDisk(d, req, buf), req.parent, req.name, req.ext, FreeSlot(TableOf(d, req.parent)))
  {
    ParentWritten(d, req, buf);
    NewNameIn(TableOf(d, req.parent), req, FreeList(Fat(d))[0]);
  }

  lemma {:induction false} NewNameIn(t: Table, req: Request, c: DWord)
    requires req.size > 0 && ValidateTable(t, req) == 0 && FreeSlot(t) != 0 && t[0].name != req.name
    ensures ResolvesIn(t[FreeSlot(t) := NewEntry(t[FreeSlot(t)], req, c)], req.name, req.ext, FreeSlot(t))
  {
    var slot := FreeSlot(t);
    assert forall j | 0 <= j < 64 :: !Clashes(t[j], req);
    FirstNamedIs(t[slot := NewEntry(t[slot], req, c)], req.name, req.ext, slot);
  }

  /** Write, run, read: after a file write that returned 0, and after any further requests at all, failed
      ones included, reading the file with a large enough buffer returns 0 and the first 512 bytes that
      were written. The parent must be an allocated directory, the name not the directory's own, and no
      later request may be accepted with one of the file's clusters as its parent. */
  lemma {:induction false} ReadAfterWrite(d: Disk, req: Request, buf: seq<Byte>, ops: seq<Op>, r: Request)
    requires req.size > 0 && WriteCode(d, req) == 0 && 2048 * Need(req.size) <= |buf|
    requires req.parent < 512 && Fat(d)[req.parent] != EMPTY && TableOf(d, req.parent)[0].name != req.name
    requires Spared(WriteDisk(d, req, buf), ops, Chosen(Fat(d), req.size))
    requires r.parent == req.parent && r.name == req.name && r.ext == req.ext
    ensures var e := Run(Step(d, Write(req, buf)), ops);
            && ReadCode(e, r) == (if r.size < req.size then 2 else 0)
            && (r.size >= req.size ==>
                ReadCluster(e, r) < 2048 && e[ReadCluster(e, r)][..512] == buf[..512])
  {
    var cs, d1 := Chosen(Fat(d), req.size), WriteDisk(d, req, buf);
    var idx := FreeSlot(TableOf(d, req.parent));
    WrittenThere(d, req, buf, d1, cs, idx);
    ReadLater(d1, ops, req, idx, cs, r);
    FirstPiece(buf, buf[..2048]);
    PieceStarts(buf, buf[..2048]);
    FirstClusterThere(d, req, buf, d1, cs, buf[..2048]);
  }

  /** Right after the write: the name leads to the new slot, which holds the file. */
  lemma {:induction false} WrittenThere(
      d: Disk, req: Request, buf: seq<Byte>, d1: Disk, cs: seq<MapIndex>, idx: nat)
    requires req.size > 0 && WriteCode(d, req) == 0
    requires req.parent < 512 && Fat(d)[req.parent] != EMPTY && TableOf(d, req.parent)[0].name != req.name
    requires d1 == WriteDisk(d, req, buf) && cs == Chosen(Fat(d), req.size) && idx == FreeSlot(TableOf(d, req.parent))
    ensures Resolves(d1, req.parent, req.name, req.ext, idx)
    ensures FileAt(d1, req.parent, idx, cs)
    ensures TableOf(d1, req.parent)[idx].filesize == req.size
  {
    NewNameResolves(d, req, buf);
    FileIsEntered(d, req, buf);
    ParentWritten(d, req, buf);
  }

  lemma {:induction false} FirstClusterThere(
      d: Disk, req: Request, buf: seq<Byte>, d1: Disk, cs: seq<MapIndex>, piece: Cluster)
    requires req.size > 0 && WriteCode(d, req) == 0 && 2048 * Need(req.size) <= |buf| && PieceOf(buf, 0, piece)
    requires d1 == WriteDisk(d, req, buf) && cs == Chosen(Fat(d), req.size)
    ensures cs != [] && d1[cs[0]] == piece
  {
    ChosenTakeable(Fat(d), req.size);
    ClusterWritten(d, req, buf, cs, 0, piece);
  }

  lemma {:induction false} PieceStarts(buf: seq<Byte>, piece: Cluster)
    requires 2048 <= |buf| && piece == buf[..2048]
    ensures piece[..512] == buf[..512]
  {
  }

  lemma {:induction false} ReadLater(d: Disk, ops: seq<Op>, req: Request, idx: nat, cs: seq<MapIndex>, r: Request)
    requires Spared(d, ops, cs)
    requires Resolves(d, req.parent, req.name, req.ext, idx) && FileAt(d, req.parent, idx, cs)
    requires TableOf(d, req.parent)[idx].filesize == req.size
    requires r.parent == req.parent && r.name == req.name && r.ext == req.ext
    ensures var e := Run(d, ops);
            && ReadCode(e, r) == (if r.size < req.size then 2 else 0)
            && (r.size >= req.size ==> ReadCluster(e, r) == cs[0] && e[cs[0]] == d[cs[0]])
  {
    NameSurvivesRun(d, ops, req.parent, req.name, req.ext, idx);
    FileSurvivesRun(d, ops, req.parent, idx, cs);
    ReadFinds(Run(d, ops), r, idx, cs);
  }

  lemma {:induction false} ReadFinds(d: Disk, r: Request, idx: nat, cs: seq<MapIndex>)
    requires Resolves(d, r.parent, r.name, r.ext, idx) && FileAt(d, r.parent, idx, cs)
    ensures ReadCode(d, r) == if r.size < TableOf(d, r.parent)[idx].filesize then 2 else 0
    ensures ReadCode(d, r) == 0 ==> ReadCluster(d, r) == cs[0]
  {
  }

  /** The content of a stored file is the same after any run. */
  lemma {:induction false} ContentAfterRun(d: Disk, req: Request, buf: seq<Byte>, ops: seq<Op>)
    requires req.size > 0 && WriteCode(d, req) == 0 && 2048 * Need(req.size) <= |buf|
    requires Spared(WriteDisk(d, req, buf), ops, Chosen(Fat(d), req.size))
    ensures var e := Run(Step(d, Write(req, buf)), ops);
            var cs := Chosen(Fat(d), req.size);
            IsChain(Fat(e), cs) && Content(e, cs)[..req.size] == buf[..req.size]
  {
    var d1, cs := WriteDisk(d, req, buf), Chosen(Fat(d), req.size);
    FileIsStored(d, req, buf);
    ChainSurvivesRun(d1, ops, cs);
    ContentKept(d1, Run(d1, ops), cs);
  }
}
