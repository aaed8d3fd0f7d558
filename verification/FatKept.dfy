/** The directory tables of a file system that started new, through every run, files that run out of clusters
    midway included: exactly when their live names stay pairwise distinct. */
module FatKept {
  import opened Bytes
  import opened Layout
  import opened FatSpec
  import opened FatSafety
  import opened FatFiles
  import opened FatEffect
  import opened FatAlloc
  import opened FatRuns
  import opened FatTables
  import opened FatTree
  import opened FatNew
  import opened FatFolders
  import opened FatMidway

  /** The tables of the root and of all folders are well kept, their live names pairwise distinct included. */
  ghost predicate AllKept(d: Disk, p: Folders) {
    forall c: nat | Known(p, c) :: c < 512 && WellKept(TableOf(d, c))
  }

  predicate Creates(d: Disk, op: Op) {
    op.Write? && op.req.size == 0 && Accepted(d, op.req)
  }

  /** If the operation creates a folder, what its cluster holds makes a kept table once the header is in. */
  ghost predicate FindsRoom(d: Disk, op: Op) {
    Creates(d, op) ==> KeptBehind(TableOf(d, FreeList(Fat(d))[0]), op.req.name)
  }

  // ---- one request ----

  lemma {:induction false} KnownAllocated(d: Disk, p: Folders, c: nat)
    requires FoldersLinked(d, p) && Known(p, c)
    ensures 2 <= c < 512 && Fat(d)[c] != EMPTY
  {
  }

  lemma {:induction false} OldKept(d: Disk, p: Folders, req: Request, e: Disk, c: nat)
    requires FoldersLinked(d, p) && AllKept(d, p) && Known(p, c)
    requires Accepted(d, req) && Confined(d, req, e)
    ensures c < 512 && WellKept(TableOf(e, c))
  {
    KnownAllocated(d, p, c);
    if c == req.parent {
      ParentTableKept(d, req, e);
      WellKeptAfterEntry(TableOf(d, c), req, FreeList(Fat(d))[0]);
    } else {
      assert TableOf(e, c) == TableOf(d, c);
    }
  }

  lemma {:induction false} OldAllKept(d: Disk, p: Folders, req: Request, e: Disk)
    requires FoldersLinked(d, p) && AllKept(d, p) && Accepted(d, req) && Confined(d, req, e)
    ensures AllKept(e, p)
  {
    forall c: nat | Known(p, c)
      ensures c < 512 && WellKept(TableOf(e, c))
    {
      OldKept(d, p, req, e, c);
    }
  }

  lemma {:induction false} NewKept(d: Disk, p: Folders, req: Request, buf: seq<Byte>, c: nat, t: Table)
    requires FoldersLinked(d, p) && Accepted(d, req) && req.size == 0 && Known(p, req.parent)
    requires c == FreeList(Fat(d))[0] && t == TableOf(d, c)
    ensures c < 512 && (WellKept(TableOf(WriteDisk(d, req, buf), c)) <==> KeptBehind(t, req.name))
  {
    NewFolderLinked(d, p, req, buf);
    FolderTableWritten(d, req, buf);
    HeadedKept(t, TableOf(WriteDisk(d, req, buf), c), req.name, req.parent);
  }

  lemma {:induction false} OneMoreKept(e: Disk, p: Folders, c: nat, parent: nat)
    requires AllKept(e, p) && c < 512
    ensures AllKept(e, p[c := parent]) <==> WellKept(TableOf(e, c))
  {
    assert Known(p[c := parent], c);
  }

  /** Every request, one that runs out midway included, keeps all tables well kept if and only if a folder that
      it creates finds room: entries that are added, and files, never spoil a table. */
  lemma {:induction false} StepKeepsTables(d: Disk, p: Folders, op: Op)
    requires FoldersLinked(d, p) && AllKept(d, p)
    requires op.Write? ==> Known(p, op.req.parent) || ValidateCode(d, op.req) == 2
    ensures AllKept(Step(d, op), FoldersStep(d, p, op)) <==> FindsRoom(d, op)
  {
    if op.Write? && Accepted(d, op.req) {
      var e := Step(d, op);
      WriteConfined(d, op.req, op.buf);
      OldAllKept(d, p, op.req, e);
      if op.req.size == 0 {
        var c := FreeList(Fat(d))[0];
        NewKept(d, p, op.req, op.buf, c, TableOf(d, c));
        OneMoreKept(e, p, c, op.req.parent);
      }
    }
  }

  // ---- runs ----

  /** The tables are well kept now and after each operation of the run. */
  ghost predicate KeptThroughout(d: Disk, p: Folders, ops: seq<Op>)
    decreases |ops|
  {
    AllKept(d, p) && (ops == [] || KeptThroughout(Step(d, ops[0]), FoldersStep(d, p, ops[0]), ops[1..]))
  }

  ghost predicate FindRoom(d: Disk, ops: seq<Op>)
    decreases |ops|
  {
    ops == [] || (FindsRoom(d, ops[0]) && FindRoom(Step(d, ops[0]), ops[1..]))
  }

  /** Over every run the tables stay well kept if and only if each folder of the run finds room. */
  lemma {:induction false} RunKeepsTables(d: Disk, p: Folders, ops: seq<Op>)
    requires FoldersLinked(d, p) && KnownParents(d, p, ops) && AllKept(d, p)
    ensures KeptThroughout(d, p, ops) <==> FindRoom(d, ops)
    decreases |ops|
  {
    if ops != [] {
      var d', p' := Step(d, ops[0]), FoldersStep(d, p, ops[0]);
      StepKeepsTables(d, p, ops[0]);
      if FindsRoom(d, ops[0]) {
        StepKeepsFolders(d, p, ops[0]);
        RunKeepsTables(d', p', ops[1..]);
      }
    }
  }

  lemma {:induction false} KeptAtEnd(d: Disk, p: Folders, ops: seq<Op>)
    requires KeptThroughout(d, p, ops)
    ensures AllKept(Run(d, ops), FoldersRun(d, p, ops))
    decreases |ops|
  {
    if ops != [] {
      KeptAtEnd(Step(d, ops[0]), FoldersStep(d, p, ops[0]), ops[1..]);
    }
  }

  // ---- from a new file system ----

  /** Whether the last write that was accepted is one that ran out of clusters midway. */
  function BrokenStep(d: Disk, broken: bool, op: Op): bool {
    if op.Write? && Accepted(d, op.req) then RunsOut(d, op.req) else broken
  }

  /** No folder is created while it is. */
  predicate Careful(d: Disk, broken: bool, ops: seq<Op>)
    decreases |ops|
  {
    ops == []
    || (!(broken && Creates(d, ops[0])) && Careful(Step(d, ops[0]), BrokenStep(d, broken, ops[0]), ops[1..]))
  }

  /** The free clusters are blank, but for the one that a failed file leaves. */
  ghost predicate BlankBut(d: Disk, broken: bool) {
    if broken then |FreeSet(Fat(d))| == 1
    else forall c: MapIndex | 2 < c && Fat(d)[c] == EMPTY :: BlankEntries(TableOf(d, c))
  }

  lemma {:induction false} FreeAfter(d: Disk, req: Request, buf: seq<Byte>, e: Disk, c: MapIndex)
    requires WriteCode(d, req) == 0 && e == WriteDisk(d, req, buf)
    requires 2 <= req.parent < 512 && Fat(d)[req.parent] != EMPTY && 2 < c && Fat(e)[c] == EMPTY
    ensures Fat(d)[c] == EMPTY && TableOf(e, c) == TableOf(d, c)
  {
    var cs := Chosen(Fat(d), req.size);
    WriteGrows(d, req, buf);
    AllocatedGrow(d, req, e, cs, c);
    assert c !in Members(cs);
    assert TableOf(e, c) == TableOf(d, c);
  }

  lemma {:induction false} NoneLeft(d: Disk, req: Request, buf: seq<Byte>, e: Disk)
    requires WriteCode(d, req) == 0 && req.size > 0 && |FreeSet(Fat(d))| == 1 && e == WriteDisk(d, req, buf)
    ensures BlankBut(e, false)
  {
    FreeCountAfter(d, req, buf);
    assert FreeSet(Fat(e)) == {};
    forall c: MapIndex | 2 < c
      ensures Fat(e)[c] != EMPTY
    {
      assert c !in FreeSet(Fat(e));
    }
  }

  lemma {:induction false} StepStaysBlank(d: Disk, broken: bool, op: Op)
    requires BlankBut(d, broken) && !(broken && Creates(d, op))
    requires op.Write? && Accepted(d, op.req) ==> 2 <= op.req.parent < 512 && Fat(d)[op.req.parent] != EMPTY
    ensures BlankBut(Step(d, op), BrokenStep(d, broken, op))
  {
    if op.Write? && Accepted(d, op.req) {
      var e := Step(d, op);
      if RunsOut(d, op.req) {
        FreeCountAfter(d, op.req, op.buf);
      } else if broken {
        NoneLeft(d, op.req, op.buf, e);
      } else {
        forall c: MapIndex | 2 < c && Fat(e)[c] == EMPTY
          ensures BlankEntries(TableOf(e, c))
        {
          FreeAfter(d, op.req, op.buf, e, c);
        }
      }
    }
  }

  lemma {:induction false} BlankRoom(t: Table, name: Name)
    requires BlankEntries(t) && name != NO_NAME
    ensures KeptBehind(t, name)
  {
  }

  lemma {:induction false} FolderFindsRoom(d: Disk, p: Folders, op: Op)
    requires FoldersLinked(d, p) && AllKept(d, p) && BlankBut(d, false)
    requires Creates(d, op) && Known(p, op.req.parent)
    ensures FindsRoom(d, op)
  {
    var c := FreeList(Fat(d))[0];
    NewFolderLinked(d, p, op.req, op.buf);
    FreeListMembers(Fat(d));
    assert c in Members(FreeList(Fat(d)));
    NewPair(TableOf(d, op.req.parent), op.req, c);
    BlankRoom(TableOf(d, c), op.req.name);
  }

  lemma {:induction false} CarefulFindsRoom(d: Disk, p: Folders, broken: bool, ops: seq<Op>)
    requires FoldersLinked(d, p) && KnownParents(d, p, ops) && AllKept(d, p)
    requires BlankBut(d, broken) && Careful(d, broken, ops)
    ensures FindRoom(d, ops)
    decreases |ops|
  {
    if ops != [] {
      var op := ops[0];
      if op.Write? && Accepted(d, op.req) {
        KnownAllocated(d, p, op.req.parent);
        if op.req.size == 0 {
          FolderFindsRoom(d, p, op);
        }
      }
      StepKeepsTables(d, p, op);
      StepKeepsFolders(d, p, op);
      StepStaysBlank(d, broken, op);
      CarefulFindsRoom(Step(d, op), FoldersStep(d, p, op), BrokenStep(d, broken, op), ops[1..]);
    }
  }

  lemma {:induction false} NewAllKept(e: Disk)
    requires IsNew(e)
    ensures FoldersLinked(e, map[]) && AllKept(e, map[]) && BlankBut(e, false)
  {
    assert RootName()[0] != NO_NAME[0];
    NewTableWellKept(TableOf(e, 2), RootName(), ROOT);
  }

  /** From a new file system, over every run whose writes name known directories or parents that are rejected,
      files that run out of clusters midway included: as long as no folder is created while the last accepted
      write is one that ran out, the live names of every directory's table stay pairwise distinct. */
  lemma {:induction false} NamesStayDistinct(e: Disk, ops: seq<Op>)
    requires IsNew(e) && KnownParents(e, map[], ops) && Careful(e, false, ops)
    ensures KeptThroughout(e, map[], ops) && AllKept(Run(e, ops), FoldersRun(e, map[], ops))
  {
    NewAllKept(e);
    CarefulFindsRoom(e, map[], false, ops);
    RunKeepsTables(e, map[], ops);
    KeptAtEnd(e, map[], ops);
  }

  // ---- and when they do not ----

  lemma {:induction false} TwoSteps(d: Disk, p: Folders, ops: seq<Op>, d1: Disk, p1: Folders)
    requires |ops| == 2 && d1 == Step(d, ops[0]) && p1 == FoldersStep(d, p, ops[0])
    ensures Run(d, ops) == Step(d1, ops[1]) && FoldersRun(d, p, ops) == FoldersStep(d1, p1, ops[1])
  {
    assert ops[1..] == [ops[1]];
    assert Run(d1, ops[1..]) == Run(Step(d1, ops[1]), []);
    assert FoldersRun(d1, p1, ops[1..]) == FoldersRun(Step(d1, ops[1]), FoldersStep(d1, p1, ops[1]), []);
  }

  lemma {:induction false} AfterFirst(
      e: Disk, req: Request, buf: seq<Byte>, next: Request, d: Disk, n: nat, piece: Cluster) returns (c: MapIndex)
    requires IsNew(e) && FirstTooLarge(req) && SecondInRoot(req, next) && d == WriteDisk(e, req, buf)
    requires n == 508 && PieceOf(buf, n, piece)
    ensures Accepted(d, next) && FreeList(Fat(d)) == [c] && d[c] == piece
  {
    FailsThenAccepts(e, req, buf, next);
    c := Chosen(Fat(e), req.size)[n];
    LeftBehind(e, req, buf, Chosen(Fat(e), req.size), n, piece, d);
  }

  /** A file that needs more clusters than a new file system has, then a folder: whether the names stay distinct
      depends on the last 2048 bytes of the file that were stored, and on nothing else. */
  lemma {:induction false} NamesLostExactly(e: Disk, first: Op, second: Op, ops: seq<Op>, piece: Cluster)
    requires IsNew(e) && |ops| == 2 && first == ops[0] && second == ops[1] && first.Write? && second.Write?
    requires FirstTooLarge(first.req) && SecondInRoot(first.req, second.req) && second.req.size == 0
    requires PieceOf(first.buf, 508, piece)
    ensures AllKept(Run(e, ops), FoldersRun(e, map[], ops)) <==> KeptBehind(DecodeTable(piece), second.req.name)
  {
    var d, p := Step(e, first), FoldersStep(e, map[], first);
    var c := AfterFirst(e, first.req, first.buf, second.req, d, 508, piece);
    FirstKept(e, first, d, p);
    SecondDecides(d, p, second, c, DecodeTable(piece));
    TwoSteps(e, map[], ops, d, p);
  }

  lemma {:induction false} FirstKept(e: Disk, op: Op, d: Disk, p: Folders)
    requires IsNew(e) && op.Write? && op.req.parent == ROOT && op.req.size > 0
    requires d == Step(e, op) && p == FoldersStep(e, map[], op)
    ensures FoldersLinked(d, p) && AllKept(d, p)
  {
    NewAllKept(e);
    StepKeepsTables(e, map[], op);
    StepKeepsFolders(e, map[], op);
  }

  lemma {:induction false} SecondDecides(d: Disk, p: Folders, op: Op, c: MapIndex, t: Table)
    requires FoldersLinked(d, p) && AllKept(d, p) && Creates(d, op) && Known(p, op.req.parent)
    requires FreeList(Fat(d)) == [c] && t == TableOf(d, c)
    ensures AllKept(Step(d, op), FoldersStep(d, p, op)) <==> KeptBehind(t, op.req.name)
  {
    StepKeepsTables(d, p, op);
  }

  /** A table with two entries of one name. */
  function Twins(name: Name): Table {
    var twin := ZERO_ENTRY.(name := name, userAttribute := NOT_EMPTY, filesize := 1);
    seq(64, i => if i == 1 || i == 2 then twin else ZERO_ENTRY)
  }

  lemma {:induction false} TwinsUnkept(piece: Cluster, name: Name, other: Name)
    requires piece == EncodeTable(Twins(name)) && name != other
    ensures !KeptBehind(DecodeTable(piece), other)
  {
    var t := Twins(name);
    TableRoundTrip(t);
    assert Live(t[1]) && Live(t[2]) && SamePair(t[1], t[2]);
  }

  /** An input for which they do not: the content that was stored ends in such a table. */
  lemma {:induction false} NamesLost(e: Disk, first: Op, second: Op, ops: seq<Op>, piece: Cluster, name: Name)
    requires IsNew(e) && |ops| == 2 && first == ops[0] && second == ops[1] && first.Write? && second.Write?
    requires FirstTooLarge(first.req) && SecondInRoot(first.req, second.req) && second.req.size == 0
    requires PieceOf(first.buf, 508, piece)
    requires piece == EncodeTable(Twins(name)) && name != second.req.name
    ensures !AllKept(Run(e, ops), FoldersRun(e, map[], ops))
  {
    TwinsUnkept(piece, name, second.req.name);
    NamesLostExactly(e, first, second, ops, piece);
  }
}
