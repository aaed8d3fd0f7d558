/** A file write that runs out of clusters midway: it is exactly what ends a tree, and what comes of it next. */
module FatMidway {
  import opened Bytes
  import opened Layout
  import opened FatSpec
  import opened FatChains
  import opened FatFiles
  import opened FatEffect
  import opened FatAlloc
  import opened FatTables
  import opened FatNew
  import opened FatTree
  import opened FatFresh

  // ---- no tree is left ----

  /** Each cluster links to the next one, and the last to none. */
  ghost predicate NeverEnded(g: FatTable, cs: seq<MapIndex>) {
    && cs != []
    && (forall k | 0 <= k < |cs| :: 2 <= cs[k])
    && (forall k | 0 <= k < |cs| - 1 :: g[cs[k]] == cs[k + 1])
    && g[cs[|cs| - 1]] == EMPTY
  }

  lemma {:induction false} LinkedNeverEnds(f: FatTable, cs: seq<MapIndex>)
    requires Takeable(f, cs)
    ensures NeverEnded(Linked(f, cs, |cs| - 1), cs)
  {
    LinkedAt(f, cs, |cs| - 1);
    assert cs[|cs| - 1] !in cs[..|cs| - 1];
  }

  /** A walk along its links is no complete chain. */
  lemma {:induction false} BrokenVisit(g: FatTable, cs: seq<MapIndex>, k: nat, n: nat)
    requires NeverEnded(g, cs) && k < |cs|
    ensures !IsChain(g, Visit(g, cs[k], n))
    decreases n
  {
    if k < |cs| - 1 && n > 0 {
      assert g[cs[k]] == cs[k + 1];
      var rest := Visit(g, cs[k + 1], n - 1);
      BrokenVisit(g, cs, k + 1, n - 1);
      if rest != [] {
        TailIsChain(g, cs[k], rest);
      }
    }
  }

  lemma {:induction false} TailIsChain(g: FatTable, c: MapIndex, rest: seq<MapIndex>)
    requires rest != []
    ensures IsChain(g, [c] + rest) ==> IsChain(g, rest)
  {
    var all := [c] + rest;
    assert forall k | 0 <= k < |rest| :: rest[k] == all[k + 1];
  }

  lemma {:induction false} EntryStays(d: Disk, o: Owner, req: Request, buf: seq<Byte>, s: Slot)
    requires Tree(d, o) && IsDir(d, o, req.parent) && Accepted(d, req) && LiveSlot(d, o, s)
    ensures EntryOf(WriteDisk(d, req, buf), s) == EntryOf(d, s)
  {
    DirAllocated(d, o, s.dir);
    WriteConfined(d, req, buf);
    SlotKept(d, req, WriteDisk(d, req, buf), s.dir, s.idx);
  }

  /** A folder's own cluster is the one its entry names. */
  lemma {:induction false} FolderStart(d: Disk, o: Owner, c: nat)
    requires Tree(d, o) && IsDir(d, o, c) && c != ROOT
    ensures LiveSlot(d, o, o[c]) && o[c].dir < c && EntryCluster(EntryOf(d, o[c])) == c
  {
    assert LiveSlot(d, o, o[c]);
    assert ChainOk(d, o, o[c]);
    WalkStart(Fat(d), EntryCluster(EntryOf(d, o[c])));
    var i: MapIndex := c;
    assert i in Walk(Fat(d), EntryCluster(EntryOf(d, o[c])));
  }

  /** Whatever the owners afterwards, the directories there were are still directories. */
  lemma {:induction false} DirsStay(d: Disk, o: Owner, req: Request, buf: seq<Byte>, o': Owner, c: nat)
    requires Tree(d, o) && IsDir(d, o, req.parent) && Accepted(d, req)
    requires Tree(WriteDisk(d, req, buf), o') && IsDir(d, o, c)
    ensures IsDir(WriteDisk(d, req, buf), o', c)
    decreases c
  {
    if c != ROOT {
      var e, s := WriteDisk(d, req, buf), o[c];
      FolderStart(d, o, c);
      DirsStay(d, o, req, buf, o', s.dir);
      EntryStays(d, o, req, buf, s);
      SlotOwnsStart(e, o', s);
    }
  }

  lemma {:induction false} NewSlotLive(d: Disk, o: Owner, req: Request, buf: seq<Byte>, o': Owner)
    requires Tree(d, o) && IsDir(d, o, req.parent) && Accepted(d, req) && Tree(WriteDisk(d, req, buf), o')
    ensures var e, s := WriteDisk(d, req, buf), NewSlot(d, req);
            LiveSlot(e, o', s) && EntryCluster(EntryOf(e, s)) == FreeList(Fat(d))[0]
  {
    DirAllocated(d, o, req.parent);
    DirsStay(d, o, req, buf, o', req.parent);
    ParentWritten(d, req, buf);
  }

  /** The entry of a file that ran out leads to no complete chain. */
  lemma {:induction false} NoChainLeft(d: Disk, req: Request, buf: seq<Byte>, n: nat)
    requires RunsOut(d, req)
    ensures !IsChain(Fat(WriteDisk(d, req, buf)), Visit(Fat(WriteDisk(d, req, buf)), FreeList(Fat(d))[0], n))
  {
    ChosenTakeable(Fat(d), req.size);
    FatWritten(d, req, buf);
    LinkedNeverEnds(Fat(d), Chosen(Fat(d), req.size));
    BrokenVisit(Fat(WriteDisk(d, req, buf)), Chosen(Fat(d), req.size), 0, n);
  }

  lemma {:induction false} NoTreeLeft(d: Disk, o: Owner, req: Request, buf: seq<Byte>, o': Owner)
    requires Tree(d, o) && IsDir(d, o, req.parent) && RunsOut(d, req)
    ensures !Tree(WriteDisk(d, req, buf), o')
  {
    var e := WriteDisk(d, req, buf);
    NoChainLeft(d, req, buf, |Fat(e)|);
    if Tree(e, o') {
      NewSlotLive(d, o, req, buf, o');
    }
  }

  /** An accepted request leaves a tree if and only if it does not run out of clusters midway. */
  lemma {:induction false} TreeKeptExactly(d: Disk, o: Owner, req: Request, buf: seq<Byte>)
    requires Tree(d, o) && IsDir(d, o, req.parent) && Accepted(d, req)
    ensures (exists o' :: Tree(WriteDisk(d, req, buf), o')) <==> !RunsOut(d, req)
  {
    if RunsOut(d, req) {
      forall o'
        ensures !Tree(WriteDisk(d, req, buf), o')
      {
        NoTreeLeft(d, o, req, buf, o');
      }
    } else {
      WriteIsGrowth(d, o, req, buf);
      WriteStaysPacked(d, req, buf);
      GrowthKeepsTree(d, o, req, WriteDisk(d, req, buf), NewOwner(d, o, req), Chosen(Fat(d), req.size));
    }
  }

  // ---- what the next request makes of it ----

  /** The one cluster still free is the last one of the file that failed. */
  lemma {:induction false} LastStaysFree(d: Disk, req: Request, buf: seq<Byte>)
    requires RunsOut(d, req)
    ensures var cs := Chosen(Fat(d), req.size);
            cs != [] && FreeList(Fat(WriteDisk(d, req, buf))) == [cs[|cs| - 1]]
  {
    var cs := FreeList(Fat(d));
    FatWritten(d, req, buf);
    FinalLeavesOne(Fat(d), req.size, cs, Fat(WriteDisk(d, req, buf)));
    OneLeft(Fat(WriteDisk(d, req, buf)), cs[|cs| - 1]);
  }

  lemma {:induction false} OneLeft(g: FatTable, c: nat)
    requires FreeSet(g) == {c}
    ensures FreeList(g) == [c]
  {
    FreeListMembers(g);
    assert FreeList(g)[0] in Members(FreeList(g));
  }

  /** A file for a new file system's root that needs more clusters than there are. */
  predicate FirstTooLarge(req: Request) {
    req.parent == ROOT && req.name != RootName() && req.name != NO_NAME && Need(req.size) > 509
  }

  /** A second entry for that root, under yet another name. */
  predicate SecondInRoot(req: Request, next: Request) {
    next.parent == ROOT && next.name != RootName() && next.name != NO_NAME && next.name != req.name
  }

  lemma {:induction false} SecondAdmitted(t: Table, req: Request, c: DWord, next: Request)
    requires IsNewTable(t, RootName(), ROOT) && SecondInRoot(req, next)
    ensures var t' := t[1 := NewEntry(t[1], req, c)]; ValidateTable(t', next) == 0 && FreeSlot(t') == 2
  {
    var t' := t[1 := NewEntry(t[1], req, c)];
    assert Live(t'[1]) && !Live(t'[2]);
    var h := FirstClash(t', next);
  }

  /** It happens on a new file system: a file of more than 509 clusters, and after it any second entry. */
  lemma {:induction false} FailsThenAccepts(e: Disk, req: Request, buf: seq<Byte>, next: Request)
    requires IsNew(e) && FirstTooLarge(req) && SecondInRoot(req, next)
    ensures RunsOut(e, req) && |Chosen(Fat(e), req.size)| == 509
    ensures Accepted(WriteDisk(e, req, buf), next)
    ensures WriteCode(WriteDisk(e, req, buf), next) == 0 <==> Need(next.size) <= 1
  {
    NewCapacity(e, req);
    NewFreeCount(Fat(e), |Fat(e)|);
    FreeListMembers(Fat(e));
    LastStaysFree(e, req, buf);
    ParentWritten(e, req, buf);
    RootAdmits(TableOf(e, 2), req);
    SecondAdmitted(TableOf(e, 2), req, FreeList(Fat(e))[0], next);
  }

  /** The next request that is accepted takes exactly that cluster. If it returns 0, the chain of the file
      that failed is complete after all, and ends in the cluster of the new file or folder. */
  lemma {:induction false} NextRequestShares(d: Disk, req: Request, buf: seq<Byte>, next: Request, more: seq<Byte>)
    requires RunsOut(d, req) && Accepted(WriteDisk(d, req, buf), next)
    ensures var e, cs := WriteDisk(d, req, buf), Chosen(Fat(d), req.size);
            && Takeable(Fat(d), cs)
            && Chosen(Fat(e), next.size) == [cs[|cs| - 1]]
            && (WriteCode(e, next) == 0 ==> Fat(WriteDisk(e, next, more)) == Closed(Fat(d), cs))
  {
    var e, cs := WriteDisk(d, req, buf), Chosen(Fat(d), req.size);
    LastStaysFree(d, req, buf);
    ChosenTakeable(Fat(e), next.size);
    ChosenTakeable(Fat(d), req.size);
    FatWritten(d, req, buf);
    FatWritten(e, next, more);
    EndAlone(Fat(e), cs[|cs| - 1]);
  }

  lemma {:induction false} EndAlone(f: FatTable, c: MapIndex)
    ensures Closed(f, [c]) == f[c := END_OF_FILE]
  {
    assert Linked(f, [c], 0) == f;
  }

  /** Then both entries are there, and the cluster belongs to both. */
  lemma {:induction false} BothEntered(d: Disk, req: Request, buf: seq<Byte>, next: Request, more: seq<Byte>)
    requires RunsOut(d, req) && WriteCode(WriteDisk(d, req, buf), next) == 0
    requires req.parent < 512 && Fat(d)[req.parent] != EMPTY
    requires next.parent < 512 && Fat(WriteDisk(d, req, buf))[next.parent] != EMPTY
    ensures var e, cs := WriteDisk(d, req, buf), Chosen(Fat(d), req.size);
            var e' := WriteDisk(e, next, more);
            var slot, slot' := FreeSlot(TableOf(d, req.parent)), FreeSlot(TableOf(e, next.parent));
            && cs != [] && FileAt(e', req.parent, slot, cs)
            && FileAt(e', next.parent, slot', [cs[|cs| - 1]])
            && (req.parent != next.parent || slot != slot')
  {
    var e, cs := WriteDisk(d, req, buf), Chosen(Fat(d), req.size);
    var e' := WriteDisk(e, next, more);
    NextRequestShares(d, req, buf, next, more);
    ChosenTakeable(Fat(d), req.size);
    ClosedIsChain(Fat(d), cs);
    FailedEntered(d, req, buf, next, more);
    FatWritten(e, next, more);
    ParentWritten(e, next, more);
    EnteredFrom(e, next, e');
  }

  lemma {:induction false} FailedEntered(d: Disk, req: Request, buf: seq<Byte>, next: Request, more: seq<Byte>)
    requires Accepted(d, req) && Accepted(WriteDisk(d, req, buf), next)
    requires req.parent < 512 && Fat(d)[req.parent] != EMPTY
    ensures var e', slot := WriteDisk(WriteDisk(d, req, buf), next, more), FreeSlot(TableOf(d, req.parent));
            && TableOf(e', req.parent)[slot] == ParentTable(d, req)[slot] && Fat(e')[req.parent] != EMPTY
            && (req.parent == next.parent ==> FreeSlot(TableOf(WriteDisk(d, req, buf), next.parent)) != slot)
  {
    var e := WriteDisk(d, req, buf);
    ParentWritten(d, req, buf);
    WriteConfined(d, req, buf);
    WriteConfined(e, next, more);
    SlotKept(e, next, WriteDisk(e, next, more), req.parent, FreeSlot(TableOf(d, req.parent)));
  }

  /** What the failed file's content puts where the next request goes. */
  lemma {:induction false} LeftBehind(
      d: Disk, req: Request, buf: seq<Byte>, cs: seq<MapIndex>, n: nat, piece: Cluster, e: Disk)
    requires RunsOut(d, req) && cs == Chosen(Fat(d), req.size) && e == WriteDisk(d, req, buf)
    requires n + 1 == |cs| && PieceOf(buf, n, piece)
    ensures FreeList(Fat(e)) == [cs[n]] && e[cs[n]] == piece
  {
    LastStaysFree(d, req, buf);
    ClusterWritten(d, req, buf, cs, n, piece);
  }

  /** If the next request creates a folder, what the file left in the cluster becomes the folder's table,
      but for its header. */
  lemma {:induction false} FolderInherits(
      d: Disk, req: Request, buf: seq<Byte>, next: Request, more: seq<Byte>, cs: seq<MapIndex>, n: nat, piece: Cluster)
    requires RunsOut(d, req) && Accepted(WriteDisk(d, req, buf), next) && next.size == 0
    requires cs == Chosen(Fat(d), req.size) && n + 1 == |cs| && next.parent != cs[n] && PieceOf(buf, n, piece)
    ensures var t := DecodeTable(piece);
            TableOf(WriteDisk(WriteDisk(d, req, buf), next, more), cs[n])
            == t[0 := Header(t[0], next.name, next.parent)]
  {
    LeftBehind(d, req, buf, cs, n, piece, WriteDisk(d, req, buf));
    FolderTableWritten(WriteDisk(d, req, buf), next, more);
  }

  /** So what the last 2048 bytes of the failed file's buffer decode to, and that may be any table at all
      (Layout.TableRoundTrip), decides whether the folder's table is kept. */
  lemma {:induction false} FolderSpoiled(
      d: Disk, req: Request, buf: seq<Byte>, next: Request, more: seq<Byte>, cs: seq<MapIndex>, n: nat, piece: Cluster)
    requires RunsOut(d, req) && Accepted(WriteDisk(d, req, buf), next) && next.size == 0
    requires cs == Chosen(Fat(d), req.size) && n + 1 == |cs| && next.parent != cs[n] && PieceOf(buf, n, piece)
    ensures var u := TableOf(WriteDisk(WriteDisk(d, req, buf), next, more), cs[n]);
            IsDirectory(u) && (WellKept(u) <==> KeptBehind(DecodeTable(piece), next.name))
  {
    var t := DecodeTable(piece);
    FolderInherits(d, req, buf, next, more, cs, n, piece);
    HeadedKept(t, t[0 := Header(t[0], next.name, next.parent)], next.name, next.parent);
  }
}
