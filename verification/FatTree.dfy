/** The directory tree of a file system that started fresh: in every run whose file writes do not run
    out midway, the allocated clusters are partitioned into the root, the folders and the file chains. */
module FatTree {
  import opened Layout
  import opened FatSpec
  import opened FatChains
  import opened FatSafety
  import opened FatFiles
  import opened FatEffect
  import opened FatAlloc
  import opened FatPacked
  import opened FatTables

  datatype Slot = Slot(dir: nat, idx: nat)

  /** For each allocated cluster but the root's, the directory slot whose folder or file it belongs to. */
  type Owner = map<nat, Slot>

  ghost function EntryOf(d: Disk, s: Slot): Entry {
    if s.dir < 2048 && s.idx < 64 then TableOf(d, s.dir)[s.idx] else ZERO_ENTRY
  }

  /** c is the root or a folder's cluster. */
  ghost predicate IsDir(d: Disk, o: Owner, c: nat) {
    c == 2 || (c in o && IsFolder(EntryOf(d, o[c])))
  }

  ghost predicate LiveSlot(d: Disk, o: Owner, s: Slot) {
    IsDir(d, o, s.dir) && 1 <= s.idx < 64 && Live(EntryOf(d, s))
  }

  /** Exactly the allocated clusters from 3 on have an owner: a live slot of a directory with a smaller number. */
  ghost predicate Ledger(d: Disk, o: Owner) {
    && (forall c: nat :: c in o <==> 2 < c < 512 && Fat(d)[c] != EMPTY)
    && (forall c: nat {:trigger LiveSlot(d, o, o[c])} | c in o :: LiveSlot(d, o, o[c]) && o[c].dir < c)
  }

  /** The walk from a slot's first cluster is a complete chain of the right length that visits exactly what
      the slot owns. */
  ghost predicate ChainOk(d: Disk, o: Owner, s: Slot) {
    var e := EntryOf(d, s);
    var cs := Walk(Fat(d), EntryCluster(e));
    && IsChain(Fat(d), cs)
    && |cs| == (if IsFolder(e) then 1 else Need(e.filesize))
    && forall c: MapIndex :: c in cs <==> c in o && o[c] == s
  }

  ghost predicate Chains(d: Disk, o: Owner) {
    forall s | LiveSlot(d, o, s) :: ChainOk(d, o, s)
  }

  /** A directory's table is well kept, and its header leads back to the directory that its own entry is in. */
  ghost predicate TableOk(d: Disk, o: Owner, c: nat) {
    && c < 512 && WellKept(TableOf(d, c))
    && (c == 2 ==> ParentLink(TableOf(d, c)[0]) == 2)
    && (c != 2 ==> c in o && ParentLink(TableOf(d, c)[0]) == o[c].dir && TableOf(d, c)[0].name == EntryOf(d, o[c]).name)
  }

  ghost predicate Tables(d: Disk, o: Owner) {
    forall c: nat | IsDir(d, o, c) :: TableOk(d, o, c)
  }

  /** Every cluster that is not allocated is all zero. */
  ghost predicate FreeBlank(d: Disk) {
    forall c: ClusterNo | 2 < c && (c >= 512 || Fat(d)[c] == EMPTY) :: BlankEntries(TableOf(d, c))
  }

  ghost predicate Tree(d: Disk, o: Owner) {
    Packed(Fat(d)) && Ledger(d, o) && Chains(d, o) && Tables(d, o) && FreeBlank(d)
  }

  // ---- one successful write ----

  ghost function NewSlot(d: Disk, req: Request): Slot
    requires Accepted(d, req)
  {
    Slot(req.parent, FreeSlot(TableOf(d, req.parent)))
  }

  ghost function NewOwner(d: Disk, o: Owner, req: Request): Owner {
    if !Accepted(d, req) then o
    else o + map c: nat | c in Members(Chosen(Fat(d), req.size)) :: NewSlot(d, req)
  }

  /** The situation of one successful write whose parent is a tracked directory. */
  ghost predicate Growth(d: Disk, o: Owner, req: Request, e: Disk, o': Owner, cs: seq<MapIndex>) {
    && Tree(d, o) && Accepted(d, req) && IsDir(d, o, req.parent) && Grown(d, req, e, cs)
    && o'.Keys == o.Keys + Members(cs)
    && (forall c: nat | c in o :: o'[c] == o[c])
    && (forall c: nat | c in Members(cs) :: o'[c] == NewSlot(d, req))
  }

  lemma {:induction false} DirAllocated(d: Disk, o: Owner, c: nat)
    requires Tree(d, o) && IsDir(d, o, c)
    ensures 2 <= c < 512 && Fat(d)[c] != EMPTY
  {
  }

  lemma {:induction false} ChosenUnowned(d: Disk, o: Owner, cs: seq<MapIndex>)
    requires Tree(d, o) && Takeable(Fat(d), cs)
    ensures forall c: nat | c in Members(cs) :: c !in o && 2 < c < 512
  {
  }

  /** Entries of tracked directories stay, but for the new one. */
  lemma {:induction false} EntriesKept(d: Disk, o: Owner, req: Request, e: Disk, o': Owner, cs: seq<MapIndex>, s: Slot)
    requires Growth(d, o, req, e, o', cs) && IsDir(d, o, s.dir) && s != NewSlot(d, req) && s.idx < 64
    ensures EntryOf(e, s) == EntryOf(d, s)
  {
    DirAllocated(d, o, s.dir);
    if s.dir != req.parent {
      assert s.dir !in cs;
    }
  }

  lemma {:induction false} NewEntryThere(d: Disk, o: Owner, req: Request, e: Disk, o': Owner, cs: seq<MapIndex>)
    requires Growth(d, o, req, e, o', cs)
    ensures var n := EntryOf(e, NewSlot(d, req));
            && Live(n) && EntryCluster(n) == cs[0] && n.filesize == req.size && n.name == req.name
            && (IsFolder(n) <==> req.size == 0)
    ensures !LiveSlot(d, o, NewSlot(d, req))
  {
    DirAllocated(d, o, req.parent);
  }

  lemma {:induction false} DirsGrow(d: Disk, o: Owner, req: Request, e: Disk, o': Owner, cs: seq<MapIndex>, c: nat)
    requires Growth(d, o, req, e, o', cs)
    ensures IsDir(e, o', c) <==> IsDir(d, o, c) || (req.size == 0 && c == cs[0])
  {
    NewEntryThere(d, o, req, e, o', cs);
    ChosenUnowned(d, o, cs);
    assert cs[0] in Members(cs);
    if c in o {
      assert LiveSlot(d, o, o[c]);
      EntriesKept(d, o, req, e, o', cs, o[c]);
    } else if c in Members(cs) {
      var k :| 0 <= k < |cs| && cs[k] == c;
    }
  }

  lemma {:induction false} NewFolderBlank(d: Disk, o: Owner, req: Request, e: Disk, o': Owner, cs: seq<MapIndex>)
    requires Growth(d, o, req, e, o', cs) && req.size == 0
    ensures IsNewTable(TableOf(e, cs[0]), req.name, req.parent)
  {
    ChosenUnowned(d, o, cs);
    assert cs[0] in Members(cs);
    HeadedBlank(TableOf(d, cs[0]), TableOf(e, cs[0]), req.name, req.parent);
  }

  lemma {:induction false} LiveSlotsGrow(
      d: Disk, o: Owner, req: Request, e: Disk, o': Owner, cs: seq<MapIndex>, s: Slot)
    requires Growth(d, o, req, e, o', cs)
    ensures LiveSlot(e, o', s) <==> LiveSlot(d, o, s) || s == NewSlot(d, req)
  {
    NewEntryThere(d, o, req, e, o', cs);
    DirsGrow(d, o, req, e, o', cs, s.dir);
    if s != NewSlot(d, req) {
      if IsDir(d, o, s.dir) && s.idx < 64 {
        EntriesKept(d, o, req, e, o', cs, s);
      } else if req.size == 0 && s.dir == cs[0] && 1 <= s.idx < 64 {
        NewFolderBlank(d, o, req, e, o', cs);
        assert EntryOf(e, s) == ZERO_ENTRY;
      }
    }
  }

  lemma {:induction false} LedgerKept(d: Disk, o: Owner, req: Request, e: Disk, o': Owner, cs: seq<MapIndex>)
    requires Growth(d, o, req, e, o', cs) && Packed(Fat(e))
    ensures Ledger(e, o')
  {
    ClosedTakes(Fat(d), cs);
    forall c: nat
      ensures c in o' <==> 2 < c < 512 && Fat(e)[c] != EMPTY
    {
      AllocatedGrow(d, req, e, cs, c);
    }
    forall c: nat | c in o'
      ensures LiveSlot(e, o', o'[c]) && o'[c].dir < c
    {
      LiveSlotsGrow(d, o, req, e, o', cs, o'[c]);
      if c !in o {
        ParentBelow(d, o, req, cs, c);
      }
    }
  }

  lemma {:induction false} AllocatedGrow(d: Disk, req: Request, e: Disk, cs: seq<MapIndex>, c: nat)
    requires Takeable(Fat(d), cs) && Fat(e) == Closed(Fat(d), cs)
    ensures 2 <= c < 512 ==> (Fat(e)[c] != EMPTY <==> Fat(d)[c] != EMPTY || c in Members(cs))
    ensures c in Members(cs) ==> 2 <= c < 512
  {
    ClosedTakes(Fat(d), cs);
    assert 2 <= c < 512 ==> (c in FreeSet(Fat(e)) <==> Fat(e)[c] == EMPTY);
    assert 2 <= c < 512 ==> (c in FreeSet(Fat(d)) <==> Fat(d)[c] == EMPTY);
  }

  /** Without holes, a newly taken cluster is larger than any allocated one. */
  lemma {:induction false} ParentBelow(d: Disk, o: Owner, req: Request, cs: seq<MapIndex>, c: nat)
    requires Tree(d, o) && IsDir(d, o, req.parent) && Takeable(Fat(d), cs) && c in Members(cs)
    ensures req.parent < c
  {
    DirAllocated(d, o, req.parent);
    var k :| 0 <= k < |cs| && cs[k] == c;
  }

  /** The walks from the entries that were there before visit what they did before. */
  lemma {:induction false} OldWalkKept(d: Disk, o: Owner, req: Request, e: Disk, o': Owner, cs: seq<MapIndex>, s: Slot)
    requires Growth(d, o, req, e, o', cs) && Packed(Fat(e)) && LiveSlot(d, o, s)
    ensures EntryOf(e, s) == EntryOf(d, s)
    ensures Walk(Fat(e), EntryCluster(EntryOf(d, s))) == Walk(Fat(d), EntryCluster(EntryOf(d, s)))
    ensures IsChain(Fat(e), Walk(Fat(d), EntryCluster(EntryOf(d, s))))
  {
    var start := EntryCluster(EntryOf(d, s));
    assert ChainOk(d, o, s);
    NewEntryThere(d, o, req, e, o', cs);
    EntriesKept(d, o, req, e, o', cs, s);
    ClosedExtends(Fat(d), cs);
    ChainKept(Fat(d), Fat(e), Walk(Fat(d), start));
    WalkStart(Fat(d), start);
    WalkIsChain(Fat(e), Walk(Fat(d), start));
  }

  lemma {:induction false} OldChainKept(d: Disk, o: Owner, req: Request, e: Disk, o': Owner, cs: seq<MapIndex>, s: Slot)
    requires Growth(d, o, req, e, o', cs) && Packed(Fat(e)) && LiveSlot(d, o, s)
    ensures ChainOk(e, o', s)
  {
    var chain := Walk(Fat(d), EntryCluster(EntryOf(d, s)));
    assert ChainOk(d, o, s);
    OldWalkKept(d, o, req, e, o', cs, s);
    NewEntryThere(d, o, req, e, o', cs);
    ChosenUnowned(d, o, cs);
    forall c: MapIndex
      ensures c in chain <==> c in o' && o'[c] == s
    {
      assert c in chain <==> c in o && o[c] == s;
    }
  }

  lemma {:induction false} WalkStart(f: FatTable, c: nat)
    requires LinksAscend(f) && Walk(f, c) != []
    ensures Walk(f, c)[0] == c
  {
  }

  /** A live slot owns the cluster that its entry names. */
  lemma {:induction false} SlotOwnsStart(e: Disk, o: Owner, s: Slot)
    requires Tree(e, o) && LiveSlot(e, o, s)
    ensures var c := EntryCluster(EntryOf(e, s)); c in o && o[c] == s
  {
    assert ChainOk(e, o, s);
    WalkStart(Fat(e), EntryCluster(EntryOf(e, s)));
    assert Walk(Fat(e), EntryCluster(EntryOf(e, s)))[0] in Walk(Fat(e), EntryCluster(EntryOf(e, s)));
  }

  lemma {:induction false} NewChainOk(d: Disk, o: Owner, req: Request, e: Disk, o': Owner, cs: seq<MapIndex>)
    requires Growth(d, o, req, e, o', cs) && Packed(Fat(e))
    ensures ChainOk(e, o', NewSlot(d, req))
  {
    NewEntryThere(d, o, req, e, o', cs);
    ClosedIsChain(Fat(d), cs);
    WalkIsChain(Fat(e), cs);
    forall c: MapIndex
      ensures c in cs <==> c in o' && o'[c] == NewSlot(d, req)
    {
      if c in cs {
        var k :| 0 <= k < |cs| && cs[k] == c;
        assert c in Members(cs);
      }
      if c in o {
        assert LiveSlot(d, o, o[c]);
      }
    }
  }

  lemma {:induction false} ChainsKept(d: Disk, o: Owner, req: Request, e: Disk, o': Owner, cs: seq<MapIndex>)
    requires Growth(d, o, req, e, o', cs) && Packed(Fat(e))
    ensures Chains(e, o')
  {
    forall s | LiveSlot(e, o', s)
      ensures ChainOk(e, o', s)
    {
      LiveSlotsGrow(d, o, req, e, o', cs, s);
      if s == NewSlot(d, req) {
        NewChainOk(d, o, req, e, o', cs);
      } else {
        OldChainKept(d, o, req, e, o', cs, s);
      }
    }
  }

  lemma {:induction false} OldTableKept(d: Disk, o: Owner, req: Request, e: Disk, o': Owner, cs: seq<MapIndex>, c: nat)
    requires Growth(d, o, req, e, o', cs) && IsDir(d, o, c)
    ensures TableOk(e, o', c)
  {
    DirAllocated(d, o, c);
    NewEntryThere(d, o, req, e, o', cs);
    if c != 2 {
      assert LiveSlot(d, o, o[c]);
      EntriesKept(d, o, req, e, o', cs, o[c]);
    }
    if c == req.parent {
      WellKeptAfterEntry(TableOf(d, c), req, FreeList(Fat(d))[0]);
    } else {
      assert c !in cs;
    }
  }

  lemma {:induction false} NewFolderNamed(d: Disk, o: Owner, req: Request, e: Disk, o': Owner, cs: seq<MapIndex>)
    requires Growth(d, o, req, e, o', cs) && req.size == 0
    ensures req.name != NO_NAME
  {
    assert TableOk(d, o, req.parent);
    NewPair(TableOf(d, req.parent), req, cs[0]);
  }

  lemma {:induction false} NewTableOk(d: Disk, o: Owner, req: Request, e: Disk, o': Owner, cs: seq<MapIndex>)
    requires Growth(d, o, req, e, o', cs) && req.size == 0
    ensures TableOk(e, o', cs[0])
  {
    NewFolderNamed(d, o, req, e, o', cs);
    NewFolderBlank(d, o, req, e, o', cs);
    NewTableWellKept(TableOf(e, cs[0]), req.name, req.parent);
    ChosenUnowned(d, o, cs);
    assert cs[0] in Members(cs);
    NewEntryThere(d, o, req, e, o', cs);
  }

  lemma {:induction false} TablesKept(d: Disk, o: Owner, req: Request, e: Disk, o': Owner, cs: seq<MapIndex>)
    requires Growth(d, o, req, e, o', cs)
    ensures Tables(e, o')
  {
    forall c: nat | IsDir(e, o', c)
      ensures TableOk(e, o', c)
    {
      DirsGrow(d, o, req, e, o', cs, c);
      if IsDir(d, o, c) {
        OldTableKept(d, o, req, e, o', cs, c);
      } else {
        NewTableOk(d, o, req, e, o', cs);
      }
    }
  }

  lemma {:induction false} FreeBlankKept(d: Disk, o: Owner, req: Request, e: Disk, o': Owner, cs: seq<MapIndex>)
    requires Growth(d, o, req, e, o', cs)
    ensures FreeBlank(e)
  {
    DirAllocated(d, o, req.parent);
    forall c: ClusterNo | 2 < c && (c >= 512 || Fat(e)[c] == EMPTY)
      ensures BlankEntries(TableOf(e, c))
    {
      AllocatedGrow(d, req, e, cs, c);
      assert e[c] == d[c];
      assert TableOf(e, c) == TableOf(d, c);
    }
  }

  lemma {:induction false} GrowthKeepsTree(d: Disk, o: Owner, req: Request, e: Disk, o': Owner, cs: seq<MapIndex>)
    requires Growth(d, o, req, e, o', cs) && Packed(Fat(e))
    ensures Tree(e, o')
  {
    PackedAscends(Fat(e));
    LedgerKept(d, o, req, e, o', cs);
    ChainsKept(d, o, req, e, o', cs);
    TablesKept(d, o, req, e, o', cs);
    FreeBlankKept(d, o, req, e, o', cs);
  }
}
