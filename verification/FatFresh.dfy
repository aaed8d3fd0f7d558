/** Orderly runs: the tree survives them, and what that means for the clusters. */
module FatFresh {
  import opened Bytes
  import opened Layout
  import opened FatSpec
  import opened FatChains
  import opened FatFiles
  import opened FatEffect
  import opened FatAlloc
  import opened FatRuns
  import opened FatPacked
  import opened FatTables
  import opened FatNew
  import opened FatFolders
  import opened FatTree

  /** A new file system is a tree of just the root. */
  lemma {:induction false} NewTree(e: Disk)
    requires IsNew(e)
    ensures Tree(e, map[])
  {
    assert RootName()[0] != NO_NAME[0];
    NewTableWellKept(TableOf(e, 2), RootName(), ROOT);
    forall s
      ensures !LiveSlot(e, map[], s)
    {
      if s.dir == 2 && 1 <= s.idx < 64 {
        assert EntryOf(e, s) == ZERO_ENTRY;
      }
    }
  }

  // ---- orderly runs ----

  /** A write names a tracked directory as its parent, or a cluster that the driver rejects as one, and
      if it is a file it does not run out of clusters midway. */
  ghost predicate OrderlyStep(d: Disk, o: Owner, op: Op) {
    op.Write? ==> (ValidateCode(d, op.req) == 2 || IsDir(d, o, op.req.parent)) && !RunsOut(d, op.req)
  }

  ghost function OwnerStep(d: Disk, o: Owner, op: Op): Owner {
    if op.Write? then NewOwner(d, o, op.req) else o
  }

  ghost predicate Orderly(d: Disk, o: Owner, ops: seq<Op>)
    decreases |ops|
  {
    ops == [] || (OrderlyStep(d, o, ops[0]) && Orderly(Step(d, ops[0]), OwnerStep(d, o, ops[0]), ops[1..]))
  }

  ghost function OwnerRun(d: Disk, o: Owner, ops: seq<Op>): Owner
    decreases |ops|
  {
    if ops == [] then o else OwnerRun(Step(d, ops[0]), OwnerStep(d, o, ops[0]), ops[1..])
  }

  lemma {:induction false} OwnerGrows(d: Disk, o: Owner, req: Request)
    requires Tree(d, o) && Accepted(d, req)
    ensures var o', cs := NewOwner(d, o, req), Chosen(Fat(d), req.size);
            && o'.Keys == o.Keys + Members(cs)
            && (forall c: nat | c in o :: o'[c] == o[c])
            && (forall c: nat | c in Members(cs) :: o'[c] == NewSlot(d, req))
  {
    ChosenTakeable(Fat(d), req.size);
    ChosenUnowned(d, o, Chosen(Fat(d), req.size));
  }

  lemma {:induction false} WriteIsGrowth(d: Disk, o: Owner, req: Request, buf: seq<Byte>)
    requires Tree(d, o) && IsDir(d, o, req.parent) && Accepted(d, req) && !RunsOut(d, req)
    ensures Growth(d, o, req, WriteDisk(d, req, buf), NewOwner(d, o, req), Chosen(Fat(d), req.size))
  {
    DirAllocated(d, o, req.parent);
    WriteGrows(d, req, buf);
    OwnerGrows(d, o, req);
  }

  lemma {:induction false} WriteStaysPacked(d: Disk, req: Request, buf: seq<Byte>)
    requires Packed(Fat(d)) && Accepted(d, req)
    ensures Packed(Fat(WriteDisk(d, req, buf)))
  {
    FatWritten(d, req, buf);
    FinalPacked(Fat(d), req.size);
  }

  lemma {:induction false} StepKeepsTree(d: Disk, o: Owner, op: Op)
    requires Tree(d, o) && OrderlyStep(d, o, op)
    ensures Tree(Step(d, op), OwnerStep(d, o, op))
  {
    if op.Write? && Accepted(d, op.req) {
      var req := op.req;
      WriteIsGrowth(d, o, req, op.buf);
      WriteStaysPacked(d, req, op.buf);
      GrowthKeepsTree(d, o, req, WriteDisk(d, req, op.buf), NewOwner(d, o, req), Chosen(Fat(d), req.size));
    }
  }

  lemma {:induction false} RunKeepsTree(d: Disk, o: Owner, ops: seq<Op>)
    requires Tree(d, o) && Orderly(d, o, ops)
    ensures Tree(Run(d, ops), OwnerRun(d, o, ops))
    decreases |ops|
  {
    if ops != [] {
      StepKeepsTree(d, o, ops[0]);
      RunKeepsTree(Step(d, ops[0]), OwnerStep(d, o, ops[0]), ops[1..]);
    }
  }

  // ---- what a tree means for the clusters and for the directories ----

  /** The clusters that the walk from a slot's entry visits. */
  ghost function ChainOf(d: Disk, s: Slot): seq<MapIndex> {
    Walk(Fat(d), EntryCluster(EntryOf(d, s)))
  }

  /** No sharing, no leak, no dangling link: after an orderly run the allocated clusters are exactly the
      root's and those of the live slots' complete chains, and no cluster is in two of them. */
  lemma {:induction false} RunPartitions(e: Disk, ops: seq<Op>)
    requires IsNew(e) && Orderly(e, map[], ops)
    ensures Partitioned(Run(e, ops), OwnerRun(e, map[], ops))
  {
    NewTree(e);
    RunKeepsTree(e, map[], ops);
    TreePartitions(Run(e, ops), OwnerRun(e, map[], ops));
  }

  /** The allocated clusters are exactly the root's and those of the live slots' complete chains, one cluster
      for a folder and ceil(size / 2048) for a file, and no cluster is in two of them. */
  ghost predicate Partitioned(r: Disk, o: Owner) {
    && Fat(r)[2] != EMPTY
    && (forall c: nat | 2 < c < 512 && Fat(r)[c] != EMPTY :: exists s :: LiveSlot(r, o, s) && c in ChainOf(r, s))
    && (forall s | LiveSlot(r, o, s) :: IsChain(Fat(r), ChainOf(r, s)))
    && (forall s | LiveSlot(r, o, s) ::
          |ChainOf(r, s)| == if IsFolder(EntryOf(r, s)) then 1 else Need(EntryOf(r, s).filesize))
    && (forall s, c: nat | LiveSlot(r, o, s) && c in ChainOf(r, s) :: 2 < c < 512 && Fat(r)[c] != EMPTY)
    && (forall s, s', c: nat | LiveSlot(r, o, s) && LiveSlot(r, o, s') && c in ChainOf(r, s) && c in ChainOf(r, s') ::
          s == s')
  }

  lemma {:induction false} TreePartitions(r: Disk, o: Owner)
    requires Tree(r, o)
    ensures Partitioned(r, o)
  {
    forall c: nat | 2 < c < 512 && Fat(r)[c] != EMPTY
      ensures exists s :: LiveSlot(r, o, s) && c in ChainOf(r, s)
    {
      assert c in o && LiveSlot(r, o, o[c]);
      assert ChainOk(r, o, o[c]);
      var i: MapIndex := c;
      assert i in ChainOf(r, o[c]);
    }
    forall s | LiveSlot(r, o, s)
      ensures ChainOk(r, o, s)
    {
    }
    forall s, c: nat | LiveSlot(r, o, s) && c in ChainOf(r, s)
      ensures c in o && o[c] == s
    {
      assert ChainOk(r, o, s);
      var i: MapIndex := c;
    }
  }

  /** The folders of a tree, each with the directory its entry is in. */
  ghost function FoldersOf(d: Disk, o: Owner): Folders {
    map c: nat | c in o && IsFolder(EntryOf(d, o[c])) :: o[c].dir
  }

  lemma {:induction false} TreeFolders(d: Disk, o: Owner)
    requires Tree(d, o)
    ensures FoldersLinked(d, FoldersOf(d, o))
  {
    forall c: nat | c in FoldersOf(d, o)
      ensures o[c].dir < c && IsDir(d, o, o[c].dir) && TableOk(d, o, c)
    {
      assert LiveSlot(d, o, o[c]) && IsDir(d, o, c);
    }
  }

  /** In a tree the parent links lead from any directory to the root. */
  lemma {:induction false} TreeRootReached(d: Disk, o: Owner, c: nat)
    requires Tree(d, o) && IsDir(d, o, c)
    ensures exists n: nat :: n <= c && Climb(d, c, n) == ROOT
  {
    TreeFolders(d, o);
    RootReached(d, FoldersOf(d, o), c);
  }

  /** A folder created in a tree starts with a header only, is accepted as a directory, and offers slot 1 first. */
  lemma {:induction false} NewFolderReady(d: Disk, o: Owner, req: Request, buf: seq<Byte>)
    requires Tree(d, o) && IsDir(d, o, req.parent) && req.size == 0 && WriteCode(d, req) == 0
    ensures var t := TableOf(WriteDisk(d, req, buf), FreeList(Fat(d))[0]);
            && IsNewTable(t, req.name, req.parent) && IsDirectory(t) && FreeSlot(t) == 1
  {
    var e, o', cs := WriteDisk(d, req, buf), NewOwner(d, o, req), Chosen(Fat(d), 0);
    WriteIsGrowth(d, o, req, buf);
    NewFolderBlank(d, o, req, e, o', cs);
    NewFolderNamed(d, o, req, e, o', cs);
    NewTableWellKept(TableOf(e, cs[0]), req.name, req.parent);
  }
}
