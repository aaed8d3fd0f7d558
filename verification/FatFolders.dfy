/** The folders of a file system that started new, through every run, files that run out of clusters midway
    included: each has a larger number than its parent, and the parent links lead to the root. */
module FatFolders {
  import opened Bytes
  import opened Layout
  import opened FatSpec
  import opened FatChains
  import opened FatFiles
  import opened FatEffect
  import opened FatRuns
  import opened FatPacked
  import opened FatNew
  import opened FatHonest

  /** For each folder's cluster, the cluster of the directory it was created in. */
  type Folders = map<nat, nat>

  predicate Known(p: Folders, c: nat) {
    c == ROOT || c in p
  }

  /** Every folder is allocated, has a known parent with a smaller number, and its header says so. */
  ghost predicate FoldersLinked(d: Disk, p: Folders) {
    && Packed(Fat(d))
    && forall c: nat | c in p ::
         2 < c < 512 && Fat(d)[c] != EMPTY && p[c] < c && Known(p, p[c]) && ParentLink(TableOf(d, c)[0]) == p[c]
  }

  function FoldersStep(d: Disk, p: Folders, op: Op): Folders {
    if op.Write? && op.req.size == 0 && Accepted(d, op.req) then p[FreeList(Fat(d))[0] := op.req.parent] else p
  }

  function FoldersRun(d: Disk, p: Folders, ops: seq<Op>): Folders
    decreases |ops|
  {
    if ops == [] then p else FoldersRun(Step(d, ops[0]), FoldersStep(d, p, ops[0]), ops[1..])
  }

  /** Every write of the run names a known directory as its parent, or one that is rejected. */
  predicate KnownParents(d: Disk, p: Folders, ops: seq<Op>)
    decreases |ops|
  {
    ops == []
    || ((ops[0].Write? ==> Known(p, ops[0].req.parent) || ValidateCode(d, ops[0].req) == 2)
        && KnownParents(Step(d, ops[0]), FoldersStep(d, p, ops[0]), ops[1..]))
  }

  /** Without holes, the next cluster to be taken is larger than every allocated one. */
  lemma {:induction false} FirstFreeAbove(f: FatTable, c: nat)
    requires Packed(f) && FreeList(f) != [] && 2 <= c < 512 && f[c] != EMPTY
    ensures c < FreeList(f)[0]
  {
    FreeFromExact(f, 2);
    var free := FreeFrom(f, 2);
  }

  lemma {:induction false} NewFolderLinked(d: Disk, p: Folders, req: Request, buf: seq<Byte>)
    requires FoldersLinked(d, p) && Accepted(d, req) && req.size == 0 && Known(p, req.parent)
    ensures var c, e := FreeList(Fat(d))[0], WriteDisk(d, req, buf);
            && 2 < c < 512 && req.parent < c && c !in p
            && Fat(e)[c] != EMPTY && ParentLink(TableOf(e, c)[0]) == req.parent
  {
    FirstFreeAbove(Fat(d), req.parent);
    FreeFromExact(Fat(d), 2);
    assert FreeFrom(Fat(d), 2)[0] !in p;
    FolderTableWritten(d, req, buf);
    FatWritten(d, req, buf);
    FolderFat(Fat(d));
  }

  lemma {:induction false} FoldersAfter(d: Disk, p: Folders, e: Disk, added: bool, c: nat, parent: nat)
    requires FoldersLinked(d, p) && Packed(Fat(e))
    requires forall x: nat | x in p :: Fat(e)[x] != EMPTY && TableOf(e, x)[0] == TableOf(d, x)[0]
    requires added ==>
      && Known(p, parent) && parent < c && 2 < c < 512 && c !in p
      && Fat(e)[c] != EMPTY && ParentLink(TableOf(e, c)[0]) == parent
    ensures FoldersLinked(e, if added then p[c := parent] else p)
  {
  }

  lemma {:induction false} StepKeepsFolders(d: Disk, p: Folders, op: Op)
    requires FoldersLinked(d, p) && (op.Write? ==> Known(p, op.req.parent) || ValidateCode(d, op.req) == 2)
    ensures FoldersLinked(Step(d, op), FoldersStep(d, p, op))
  {
    if op.Write? && Accepted(d, op.req) {
      var req, e := op.req, Step(d, op);
      WriteConfined(d, req, op.buf);
      FatWritten(d, req, op.buf);
      FinalPacked(Fat(d), req.size);
      if req.size == 0 {
        NewFolderLinked(d, p, req, op.buf);
      }
      forall c: nat | c in p
        ensures Fat(e)[c] != EMPTY && TableOf(e, c)[0] == TableOf(d, c)[0]
      {
        SlotKept(d, req, e, c, 0);
      }
      FoldersAfter(d, p, e, req.size == 0, FreeList(Fat(d))[0], req.parent);
    }
  }

  /** n steps along the parent links in the directory headers. */
  ghost function Climb(d: Disk, c: nat, n: nat): nat
    decreases n
  {
    if n == 0 || c >= 2048 then c else Climb(d, ParentLink(TableOf(d, c)[0]), n - 1)
  }

  /** The parent links lead from any known directory to the root. */
  lemma {:induction false} RootReached(d: Disk, p: Folders, c: nat)
    requires FoldersLinked(d, p) && Known(p, c)
    ensures exists n: nat :: n <= c && Climb(d, c, n) == ROOT
    decreases c
  {
    if c == ROOT {
      assert Climb(d, c, 0) == ROOT;
    } else {
      RootReached(d, p, p[c]);
      var n: nat :| n <= p[c] && Climb(d, p[c], n) == ROOT;
      assert Climb(d, c, n + 1) == ROOT;
    }
  }

  lemma {:induction false} RunKeepsFolders(d: Disk, p: Folders, ops: seq<Op>)
    requires FoldersLinked(d, p) && KnownParents(d, p, ops)
    ensures FoldersLinked(Run(d, ops), FoldersRun(d, p, ops))
    decreases |ops|
  {
    if ops != [] {
      StepKeepsFolders(d, p, ops[0]);
      RunKeepsFolders(Step(d, ops[0]), FoldersStep(d, p, ops[0]), ops[1..]);
    }
  }

  /** The allocated clusters are an interval, the folder at c has a larger number than its parent, and its parent
      links lead to the root. */
  ghost predicate Rooted(r: Disk, p: Folders, c: nat) {
    && Packed(Fat(r))
    && (c in p ==> p[c] < c < 512 && Fat(r)[c] != EMPTY)
    && (Known(p, c) ==> exists n: nat :: n <= c && Climb(r, c, n) == ROOT)
  }

  /** That holds of every folder after every run from a new file system, with midway failures or without. */
  lemma {:induction false} RunReachesRoot(e: Disk, ops: seq<Op>, c: nat)
    requires IsNew(e) && KnownParents(e, map[], ops)
    ensures Rooted(Run(e, ops), FoldersRun(e, map[], ops), c)
  {
    RunKeepsFolders(e, map[], ops);
    if Known(FoldersRun(e, map[], ops), c) {
      RootReached(Run(e, ops), FoldersRun(e, map[], ops), c);
    }
  }

  /** Contents that never look like a directory are enough for that, whatever parents the requests name. */
  lemma {:induction false} HonestParentsKnown(d: Disk, p: Folders, ops: seq<Op>)
    requires OnlyDirectories(d, p.Keys + {ROOT}) && forall op | op in ops :: Honest(op)
    ensures KnownParents(d, p, ops)
    ensures OnlyDirectories(Run(d, ops), FoldersRun(d, p, ops).Keys + {ROOT})
    decreases |ops|
  {
    if ops != [] {
      var p1 := FoldersStep(d, p, ops[0]);
      StepOnlyDirectories(d, p.Keys + {ROOT}, ops[0]);
      assert p1.Keys + {ROOT} == DirsStep(d, p.Keys + {ROOT}, ops[0]);
      HonestParentsKnown(Step(d, ops[0]), p1, ops[1..]);
    }
  }

  lemma {:induction false} NewOnlyRoot(e: Disk)
    requires IsNew(e)
    ensures OnlyDirectories(e, {ROOT})
  {
  }

  /** So from a new file system such runs have no other requirement at all. */
  lemma {:induction false} HonestReachesRoot(e: Disk, ops: seq<Op>, c: nat)
    requires IsNew(e) && forall op | op in ops :: Honest(op)
    ensures KnownParents(e, map[], ops) && Rooted(Run(e, ops), FoldersRun(e, map[], ops), c)
  {
    var none: Folders := map[];
    NewOnlyRoot(e);
    assert none.Keys + {ROOT} == {ROOT};
    HonestParentsKnown(e, none, ops);
    RunReachesRoot(e, ops, c);
  }
}
