/** The driver refines the store: on every disk that holds a store, requests return what the store says, and
    leave a disk that holds the store's next state. */
module FatRefines {
  import opened Bytes
  import opened Layout
  import opened FatSpec
  import opened FatChains
  import opened FatAlloc
  import opened FatRuns
  import opened FatPacked
  import opened FatTables
  import opened FatNew
  import opened FatFolders
  import opened FatHonest
  import opened FatTree
  import opened FatFresh
  import opened FileStore
  import opened FatMap
  import opened FatHolds

  // ---- what requests return ----

  lemma {:induction false} FreeSlotCounted(t: Table, i: Dir)
    requires Holds(t, i)
    ensures FreeSlot(t) == if i.entries < 63 then i.entries + 1 else 0
  {
    assert i.entries < 63 ==> !Live(t[i.entries + 1]);
  }

  lemma {:induction false} TakenByNode(d: Disk, o: Owner, s: Store, req: Request, t: Table)
    requires HoldsNodes(d, o, s.nodes) && req.parent < 512 && t == TableOf(d, req.parent) && NameTaken(s, req)
    ensures exists i | 1 <= i < 64 :: Live(t[i]) && Clashes(t[i], req)
  {
    var k: Key :| k in s.nodes && k.dir == req.parent && k.name == req.name && (req.size == 0 || k.ext == req.ext);
    assert Lookup(d, o, k).Some?;
    var i := SlotNamed(t, k.name, k.ext);
    assert Live(t[i]) && Clashes(t[i], req);
  }

  lemma {:induction false} TakenByEntry(d: Disk, o: Owner, s: Store, req: Request, t: Table, i: nat)
    requires HoldsNodes(d, o, s.nodes) && IsDir(d, o, req.parent) && req.parent < 512
    requires t == TableOf(d, req.parent) && WellKept(t) && !Clashes(t[0], req)
    requires 1 <= i < 64 && Live(t[i]) && Clashes(t[i], req)
    ensures NameTaken(s, req)
  {
    var k := Key(req.parent, t[i].name, t[i].ext);
    SlotNamedExact(t, t[i].name, t[i].ext, i);
    assert Lookup(d, o, k).Some?;
  }

  /** A name is taken in the store exactly if a live slot of the directory clashes with it. */
  lemma {:induction false} TakenExact(d: Disk, o: Owner, s: Store, req: Request, t: Table)
    requires HoldsNodes(d, o, s.nodes) && IsDir(d, o, req.parent) && req.parent < 512
    requires t == TableOf(d, req.parent) && WellKept(t) && !Clashes(t[0], req)
    ensures NameTaken(s, req) <==> exists i | 1 <= i < 64 :: Live(t[i]) && Clashes(t[i], req)
  {
    if NameTaken(s, req) {
      TakenByNode(d, o, s, req, t);
    }
    forall i | 1 <= i < 64 && Live(t[i]) && Clashes(t[i], req)
      ensures NameTaken(s, req)
    {
      TakenByEntry(d, o, s, req, t, i);
    }
  }

  lemma {:induction false} ValidationAnswered(d: Disk, o: Owner, s: Store, req: Request)
    requires Refines(d, o, s) && (req.parent in s.dirs || ValidateCode(d, req) == 2)
    ensures ValidateCode(d, req)
         == if req.parent !in s.dirs then 2
            else if !Own(s, NewKey(req)) && (NameTaken(s, req) || Blank(s, NewKey(req))) then 1
            else 0
  {
    if req.parent in s.dirs {
      var t := TableOf(d, req.parent);
      DirAllocated(d, o, req.parent);
      assert TableOk(d, o, req.parent);
      DuplicateExact(t, req);
      FreeSlotCounted(t, s.dirs[req.parent]);
      if !Own(s, NewKey(req)) {
        TakenExact(d, o, s, req, t);
      }
    }
  }

  /** write returns what the store says, and runs out of clusters midway exactly if the store says so. */
  lemma {:induction false} WriteAnswered(d: Disk, o: Owner, s: Store, req: Request)
    requires Refines(d, o, s) && (req.parent in s.dirs || ValidateCode(d, req) == 2)
    ensures WriteCode(d, req) == WriteAnswer(s, req)
    ensures Accepted(d, req) <==> Admitted(s, req)
    ensures RunsOut(d, req) <==> Overruns(s, req)
  {
    ValidationAnswered(d, o, s, req);
    FreeListMembers(Fat(d));
    if req.parent in s.dirs {
      DirAllocated(d, o, req.parent);
      FreeSlotCounted(TableOf(d, req.parent), s.dirs[req.parent]);
    }
  }

  lemma {:induction false} ShadowSame(d: Disk, o: Owner, s: Store, k: Key)
    requires Tree(d, o) && HoldsDirs(d, o, s.dirs) && k.dir in s.dirs
    ensures k.dir < 512 && (Shadowed(TableOf(d, k.dir), k.name, k.ext) <==> Own(s, k) || Blank(s, k))
  {
    FreeSlotCounted(TableOf(d, k.dir), s.dirs[k.dir]);
    assert TableOk(d, o, k.dir);
  }

  lemma {:induction false} StartIs(b: seq<Byte>, block: seq<Byte>)
    requires |block| == 512 && forall i | 0 <= i < 512 && i < |b| :: block[i] == b[i]
    ensures Start(b) <= block
  {
  }

  /** A directory's cluster starts as the store says. */
  lemma {:induction false} HeaderStarts(c: Cluster, t: Table, i: Dir)
    requires t == DecodeTable(c) && Holds(t, i)
    ensures HeaderOf(i) <= c[..512]
  {
    HeadBytes(c, t);
    assert c[..512][..32] == c[..32];
  }

  lemma {:induction false} FolderStarts(d: Disk, o: Owner, s: Store, k: Key)
    requires Refines(d, o, s) && k in s.nodes && s.nodes[k].Folder?
    ensures var c := s.nodes[k].cluster; c in s.dirs && c < 512 && HeaderOf(s.dirs[c]) <= d[c][..512]
  {
    var c := s.nodes[k].cluster;
    assert Lookup(d, o, k).Some?;
    SlotOwnsStart(d, o, Slot(k.dir, SlotNamed(TableOf(d, k.dir), k.name, k.ext)));
    assert IsDir(d, o, c);
    HeaderStarts(d[c], TableOf(d, c), s.dirs[c]);
  }

  lemma {:induction false} AnswerFrom(d: Disk, s: Store, r: Request, t: Table)
    requires Signed(d) && r.parent in s.dirs
    requires var k := Key(r.parent, r.name, r.ext);
             && (Shadowed(t, r.name, r.ext) <==> Own(s, k) || Blank(s, k))
             && ReadsAs(d, r, t, if k in s.nodes then Some(s.nodes[k]) else None)
             && (k in s.nodes && s.nodes[k].Folder? ==>
                 var c := s.nodes[k].cluster; c in s.dirs && c < 512 && HeaderOf(s.dirs[c]) <= d[c][..512])
    ensures Answered(d, r, ReadAnswer(s, r))
  {
    var k := Key(r.parent, r.name, r.ext);
    if k in s.nodes && s.nodes[k].File? && ReadCode(d, r) == 0 {
      StartIs(s.nodes[k].bytes, d[ReadCluster(d, r)][..512]);
    }
  }

  /** read returns what the store says, and what it copies starts as the store says. */
  lemma {:induction false} ReadAnswered(d: Disk, o: Owner, s: Store, r: Request)
    requires Refines(d, o, s) && (r.parent in s.dirs || ReadCode(d, r) == -1)
    ensures Answered(d, r, ReadAnswer(s, r))
  {
    if r.parent in s.dirs {
      var k := Key(r.parent, r.name, r.ext);
      ShadowSame(d, o, s, k);
      ReadFollowsMap(d, o, r);
      if k in s.nodes && s.nodes[k].Folder? {
        FolderStarts(d, o, s, k);
      }
      AnswerFrom(d, s, r, TableOf(d, r.parent));
    }
  }

  // ---- what requests leave ----

  /** Without holes, the first free cluster follows from how many there are. */
  lemma {:induction false} FirstFree(f: FatTable)
    requires Packed(f) && FreeList(f) != []
    ensures FreeList(f)[0] == 512 - |FreeSet(f)|
  {
    var free := FreeFrom(f, 2);
    FreeFromExact(f, 2);
    FreeListMembers(f);
    var i: MapIndex := 511;
    assert i in free;
    var k :| 0 <= k < |free| && free[k] == i;
    FreeContiguous(f, free, k);
    FreeContiguous(f, free, |free| - 1);
  }

  lemma {:induction false} GrownHolds(t: Table, i: Dir, req: Request, c: DWord)
    requires Holds(t, i) && i.entries < 63
    ensures Holds(t[FreeSlot(t) := NewEntry(t[FreeSlot(t)], req, c)], i.(entries := i.entries + 1))
  {
    FreeSlotCounted(t, i);
  }

  lemma {:induction false} ParentHolds(
      d: Disk, o: Owner, dirs: map<nat, Dir>, req: Request, e: Disk, o': Owner, cs: seq<MapIndex>)
    requires Growth(d, o, req, e, o', cs) && HoldsDirs(d, o, dirs)
    ensures 2 <= req.parent < 512
    ensures Holds(TableOf(e, req.parent), dirs[req.parent].(entries := dirs[req.parent].entries + 1))
  {
    DirAllocated(d, o, req.parent);
    GrownHolds(TableOf(d, req.parent), dirs[req.parent], req, FreeList(Fat(d))[0]);
  }

  lemma {:induction false} OtherHolds(
      d: Disk, o: Owner, dirs: map<nat, Dir>, req: Request, e: Disk, o': Owner, cs: seq<MapIndex>, c: nat)
    requires Growth(d, o, req, e, o', cs) && HoldsDirs(d, o, dirs) && IsDir(d, o, c) && c != req.parent
    ensures c < 512 && Holds(TableOf(e, c), dirs[c]) && c !in cs
  {
    DirAllocated(d, o, c);
    assert c !in cs;
    assert TableOf(e, c) == TableOf(d, c);
  }

  lemma {:induction false} NewHolds(t: Table, name: Name, parent: DWord)
    requires IsNewTable(t, name, parent)
    ensures Holds(t, Dir(name, parent, 0))
  {
  }

  lemma {:induction false} DirHolds(
      d: Disk, o: Owner, dirs: map<nat, Dir>, req: Request, e: Disk, o': Owner, cs: seq<MapIndex>, c: nat, i: Dir)
    requires Growth(d, o, req, e, o', cs) && HoldsDirs(d, o, dirs) && IsDir(e, o', c)
    requires req.parent in dirs && GrownDir(dirs, req, cs[0], c, i)
    ensures c < 512 && Holds(TableOf(e, c), i)
  {
    DirsGrow(d, o, req, e, o', cs, c);
    if req.size == 0 && c == cs[0] {
      NewFolderBlank(d, o, req, e, o', cs);
      NewHolds(TableOf(e, c), req.name, req.parent);
    } else if c == req.parent {
      ParentHolds(d, o, dirs, req, e, o', cs);
    } else {
      OtherHolds(d, o, dirs, req, e, o', cs, c);
    }
  }

  lemma {:induction false} DirsHold(
      d: Disk, o: Owner, dirs: map<nat, Dir>, req: Request, e: Disk, o': Owner, cs: seq<MapIndex>, grown: map<nat, Dir>)
    requires Growth(d, o, req, e, o', cs) && HoldsDirs(d, o, dirs)
    requires req.parent in dirs && grown.Keys == if req.size == 0 then dirs.Keys + {cs[0]} else dirs.Keys
    requires forall c: nat | c in grown :: GrownDir(dirs, req, cs[0], c, grown[c])
    ensures HoldsDirs(e, o', grown)
  {
    forall c: nat
      ensures c in grown <==> IsDir(e, o', c)
    {
      DirsGrow(d, o, req, e, o', cs, c);
      assert c in grown <==> c in grown.Keys;
    }
    forall c: nat | c in grown
      ensures c < 512 && Holds(TableOf(e, c), grown[c])
    {
      DirHolds(d, o, dirs, req, e, o', cs, c, grown[c]);
    }
  }

  lemma {:induction false} NewNodeSame(d: Disk, o: Owner, s: Store, req: Request, buf: seq<Byte>)
    requires Refines(d, o, s) && Accepted(d, req) && req.parent in s.dirs
    ensures OwnName(d, req) <==> Own(s, NewKey(req))
    ensures NodeWritten(d, req, buf) == NewNode(s, req, buf)
    ensures FreeList(Fat(d))[0] == 512 - s.free
  {
    FirstFree(Fat(d));
    assert TableOk(d, o, req.parent);
  }

  /** The disk holds the nodes after one was added, or after none was. */
  lemma {:induction false} NodesAfter(
      d: Disk, o: Owner, nodes: map<Key, Node>, e: Disk, o': Owner, key: Key, node: Node, added: bool,
      nodes': map<Key, Node>)
    requires HoldsNodes(d, o, nodes)
    requires forall k: Key :: Lookup(e, o', k) == if k == key && added then Some(node) else Lookup(d, o, k)
    requires nodes' == if added then nodes[key := node] else nodes
    ensures HoldsNodes(e, o', nodes')
  {
  }

  lemma {:induction false} CountAfter(d: Disk, req: Request, buf: seq<Byte>, e: Disk)
    requires WriteCode(d, req) == 0 && e == WriteDisk(d, req, buf)
    ensures |FreeSet(Fat(e))| + Cost(req.size) == |FreeSet(Fat(d))| && e[0] == d[0]
  {
    WriteKeepsBoot(d, req, buf);
    FreeCountAfter(d, req, buf);
  }

  lemma {:induction false} NodesGrow(
      d: Disk, o: Owner, nodes: map<Key, Node>, req: Request, e: Disk, o': Owner, cs: seq<MapIndex>,
      nodes': map<Key, Node>)
    requires Growth(d, o, req, e, o', cs) && Packed(Fat(e)) && HoldsNodes(d, o, nodes)
    requires nodes' == if OwnName(d, req) then nodes else nodes[NewKey(req) := NodeAt(e, NewSlot(d, req))]
    ensures HoldsNodes(e, o', nodes')
  {
    forall k: Key
      ensures Lookup(e, o', k)
           == if k == NewKey(req) && !OwnName(d, req) then Some(NodeAt(e, NewSlot(d, req))) else Lookup(d, o, k)
    {
      LookupGrows(d, o, req, e, o', cs, k);
    }
    NodesAfter(d, o, nodes, e, o', NewKey(req), NodeAt(e, NewSlot(d, req)), !OwnName(d, req), nodes');
  }

  /** Growth takes the disk from one that holds the store to one that holds the grown store. */
  lemma {:induction false} GrowthRefines(
      d: Disk, o: Owner, s: Store, req: Request, e: Disk, o': Owner, cs: seq<MapIndex>, s': Store)
    requires Growth(d, o, req, e, o', cs) && Packed(Fat(e))
    requires HoldsNodes(d, o, s.nodes) && HoldsDirs(d, o, s.dirs)
    requires s'.nodes == if OwnName(d, req) then s.nodes else s.nodes[NewKey(req) := NodeAt(e, NewSlot(d, req))]
    requires s'.dirs == GrowDirs(s.dirs, req, cs[0])
    ensures Tree(e, o') && HoldsNodes(e, o', s'.nodes) && HoldsDirs(e, o', s'.dirs)
  {
    GrowthKeepsTree(d, o, req, e, o', cs);
    NodesGrow(d, o, s.nodes, req, e, o', cs, s'.nodes);
    GrowDirsAre(s.dirs, req, cs[0]);
    DirsHold(d, o, s.dirs, req, e, o', cs, s'.dirs);
  }

  lemma {:induction false} WriteHolds(
      d: Disk, o: Owner, s: Store, req: Request, buf: seq<Byte>, e: Disk, o': Owner, s': Store)
    requires Tree(d, o) && HoldsNodes(d, o, s.nodes) && HoldsDirs(d, o, s.dirs)
    requires WriteCode(d, req) == 0 && 2048 * Need(req.size) <= |buf| && req.parent in s.dirs
    requires e == WriteDisk(d, req, buf) && o' == NewOwner(d, o, req)
    requires s'.nodes == if OwnName(d, req) then s.nodes else s.nodes[NewKey(req) := NodeWritten(d, req, buf)]
    requires s'.dirs == GrowDirs(s.dirs, req, FreeList(Fat(d))[0])
    ensures Tree(e, o') && HoldsNodes(e, o', s'.nodes) && HoldsDirs(e, o', s'.dirs)
  {
    NodeAdded(d, o, req, buf);
    WriteIsGrowth(d, o, req, buf);
    WriteStaysPacked(d, req, buf);
    GrowthRefines(d, o, s, req, e, o', Chosen(Fat(d), req.size), s');
  }

  /** A write that returns 0 takes the disk from one that holds the store to one that holds the grown store. */
  lemma {:induction false} WriteRefines(
      d: Disk, o: Owner, s: Store, req: Request, buf: seq<Byte>, e: Disk, o': Owner, s': Store)
    requires Refines(d, o, s) && WriteCode(d, req) == 0 && 2048 * Need(req.size) <= |buf|
    requires req.parent in s.dirs && Cost(req.size) <= s.free
    requires e == WriteDisk(d, req, buf) && o' == NewOwner(d, o, req) && s' == Grow(s, req, buf)
    ensures Refines(e, o', s')
  {
    NewNodeSame(d, o, s, req, buf);
    GrowIs(s, req, buf, OwnName(d, req), FreeList(Fat(d))[0], NodeWritten(d, req, buf), s');
    WriteHolds(d, o, s, req, buf, e, o', s');
    CountAfter(d, req, buf, e);
  }

  /** Every request that the store speaks about and that does not run out of clusters midway keeps the
      disk holding the store. */
  lemma {:induction false} StepRefines(d: Disk, o: Owner, s: Store, op: Op)
    requires Refines(d, o, s) && Fair(d, s, op) && !(op.Write? && Overruns(s, op.req))
    ensures OrderlyStep(d, o, op) && Refines(Step(d, op), OwnerStep(d, o, op), StoreStep(s, op))
  {
    if op.Write? {
      WriteAnswered(d, o, s, op.req);
      if WriteCode(d, op.req) == 0 {
        WriteRefines(d, o, s, op.req, op.buf, Step(d, op), OwnerStep(d, o, op), StoreStep(s, op));
      }
    }
  }

  /** Over every run of such requests, in which by the store's count no file runs out of clusters midway, the
      disk holds the store; and the run is orderly. */
  lemma {:induction false} RunRefines(d: Disk, o: Owner, s: Store, ops: seq<Op>)
    requires Refines(d, o, s) && StoreFits(s, ops) && FairRun(d, s, ops)
    ensures Orderly(d, o, ops) && Refines(Run(d, ops), OwnerRun(d, o, ops), StoreRun(s, ops))
    decreases |ops|
  {
    if ops != [] {
      StepRefines(d, o, s, ops[0]);
      RunRefines(Step(d, ops[0]), OwnerStep(d, o, ops[0]), StoreStep(s, ops[0]), ops[1..]);
    }
  }

  /** The outcome is what the store answers. */
  ghost predicate Explains(a: Answer, r: Outcome) {
    a.code == r.code && a.start <= r.block
  }

  lemma {:induction false} ReadExplained(d: Disk, r: Request, a: Answer)
    requires Answered(d, r, a)
    ensures Explains(a, OutcomeOf(d, Read(r)))
  {
  }

  lemma {:induction false} ReadStepAnswered(d: Disk, o: Owner, s: Store, r: Request)
    requires Refines(d, o, s) && (r.parent in s.dirs || ReadCode(d, r) == -1)
    ensures Explains(ReadAnswer(s, r), OutcomeOf(d, Read(r)))
  {
    ReadAnswered(d, o, s, r);
    ReadExplained(d, r, ReadAnswer(s, r));
  }

  lemma {:induction false} StepAnswered(d: Disk, o: Owner, s: Store, op: Op)
    requires Refines(d, o, s) && Fair(d, s, op)
    ensures Explains(AnswerTo(s, op), OutcomeOf(d, op))
  {
    match op
    case Initialize =>
    case Read(r) => ReadStepAnswered(d, o, s, r);
    case Write(req, _) => WriteAnswered(d, o, s, req);
  }

  lemma {:induction false} FitsFirst(s: Store, ops: seq<Op>, i: nat)
    requires 0 < i <= |ops| && StoreFits(s, ops[..i])
    ensures !(ops[0].Write? && Overruns(s, ops[0].req)) && StoreFits(StoreStep(s, ops[0]), ops[1..][..i - 1])
  {
    assert ops[..i][0] == ops[0] && ops[..i][1..] == ops[1..][..i - 1];
  }

  /** In every such run, as long as no file has run out of clusters midway, every code and every block that
      comes back is what the store answers, up to the code of the first file that does run out. */
  lemma {:induction false} RunAnswered(d: Disk, o: Owner, s: Store, ops: seq<Op>, i: nat)
    requires i < |ops| && Refines(d, o, s) && StoreFits(s, ops[..i]) && FairRun(d, s, ops)
    ensures Explains(Answers(s, ops)[i], Outcomes(d, ops)[i])
    decreases |ops|
  {
    FirstAnswer(d, s, ops);
    if i == 0 {
      StepAnswered(d, o, s, ops[0]);
    } else {
      FitsFirst(s, ops, i);
      StepRefines(d, o, s, ops[0]);
      RunAnswered(Step(d, ops[0]), OwnerStep(d, o, ops[0]), StoreStep(s, ops[0]), ops[1..], i - 1);
    }
  }

  lemma {:induction false} FitsPrefix(s: Store, ops: seq<Op>, i: nat)
    requires StoreFits(s, ops) && i <= |ops|
    ensures StoreFits(s, ops[..i])
    decreases |ops|
  {
    if i > 0 {
      assert ops[..i][0] == ops[0] && ops[..i][1..] == ops[1..][..i - 1];
      FitsPrefix(StoreStep(s, ops[0]), ops[1..], i - 1);
    }
  }

  lemma {:induction false} FirstAnswer(d: Disk, s: Store, ops: seq<Op>)
    requires ops != []
    ensures Answers(s, ops) == [AnswerTo(s, ops[0])] + Answers(StoreStep(s, ops[0]), ops[1..])
    ensures Outcomes(d, ops) == [OutcomeOf(d, ops[0])] + Outcomes(Step(d, ops[0]), ops[1..])
  {
  }

  /** The directories of the store are the clusters that pass the directory check. */
  lemma {:induction false} StoreDirsStep(d: Disk, o: Owner, s: Store, op: Op)
    requires Refines(d, o, s) && Fair(d, s, op) && !(op.Write? && Overruns(s, op.req))
    ensures StoreStep(s, op).dirs.Keys == DirsStep(d, s.dirs.Keys, op)
  {
    if op.Write? {
      WriteAnswered(d, o, s, op.req);
      if WriteCode(d, op.req) == 0 {
        NewNodeSame(d, o, s, op.req, op.buf);
        GrowIs(s, op.req, op.buf, OwnName(d, op.req), FreeList(Fat(d))[0], NodeWritten(d, op.req, op.buf),
               StoreStep(s, op));
        GrowDirsAre(s.dirs, op.req, FreeList(Fat(d))[0]);
      }
    }
  }

  lemma {:induction false} HonestIsFair(d: Disk, s: Store, op: Op)
    requires OnlyDirectories(d, s.dirs.Keys) && Honest(op)
    ensures Fair(d, s, op)
  {
  }

  /** Runs whose file contents never look like a directory are such runs, whatever parents they name. */
  lemma {:induction false} HonestRunsAreFair(d: Disk, o: Owner, s: Store, ops: seq<Op>)
    requires Refines(d, o, s) && OnlyDirectories(d, s.dirs.Keys)
    requires StoreFits(s, ops) && forall op | op in ops :: Honest(op)
    ensures FairRun(d, s, ops) && OnlyDirectories(Run(d, ops), StoreRun(s, ops).dirs.Keys)
    decreases |ops|
  {
    if ops != [] {
      HonestIsFair(d, s, ops[0]);
      StepRefines(d, o, s, ops[0]);
      StoreDirsStep(d, o, s, ops[0]);
      StepOnlyDirectories(d, s.dirs.Keys, ops[0]);
      HonestRunsAreFair(Step(d, ops[0]), OwnerStep(d, o, ops[0]), StoreStep(s, ops[0]), ops[1..]);
    }
  }

  /** A new file system holds the new store. */
  lemma {:induction false} NewRefines(e: Disk)
    requires IsNew(e)
    ensures Refines(e, map[], NewStore())
  {
    NewTree(e);
    NewFreeCount(Fat(e), |Fat(e)|);
    forall c: nat
      ensures c in NewStore().dirs <==> IsDir(e, map[], c)
    {
    }
    assert Holds(TableOf(e, 2), Dir(RootName(), ROOT, 0));
  }

  /** From a new file system, runs of honest requests in which no file runs out need no other condition. */
  lemma {:induction false} HonestRunRefines(e: Disk, ops: seq<Op>)
    requires IsNew(e) && StoreFits(NewStore(), ops) && forall op | op in ops :: Honest(op)
    ensures FairRun(e, NewStore(), ops) && Orderly(e, map[], ops)
    ensures Refines(Run(e, ops), OwnerRun(e, map[], ops), StoreRun(NewStore(), ops))
  {
    var s := NewStore();
    NewRefines(e);
    NewOnlyRoot(e);
    assert s.dirs.Keys == {ROOT};
    HonestRunsAreFair(e, map[], s, ops);
    RunRefines(e, map[], s, ops);
  }
}
