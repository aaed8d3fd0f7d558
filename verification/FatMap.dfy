/** The driver as a map from (directory, name, extension) to files and folders: what each request does to
    the map, and what a read returns of it. */
module FatMap {
  import opened Bytes
  import opened Layout
  import opened FatSpec
  import opened FatFiles
  import opened FatEffect
  import opened FatAlloc
  import opened FatRuns
  import opened FatPacked
  import opened FatTables
  import opened FatTree
  import opened FatFresh
  import opened FileStore

  datatype Option<T> = None | Some(value: T)

  /** What a slot's entry stands for: a folder's cluster, or the first filesize bytes of a file's chain. */
  ghost function NodeAt(d: Disk, s: Slot): Node {
    var e := EntryOf(d, s);
    var b := Content(d, ChainOf(d, s));
    if IsFolder(e) then Folder(EntryCluster(e))
    else File(if e.filesize <= |b| then b[..e.filesize] else b)
  }

  /** The slot of a directory's table that a name leads to: the first match, if it is a live entry. */
  function SlotNamed(t: Table, name: Name, ext: Ext): (i: nat)
    ensures i < 64
    ensures i != 0 ==> Live(t[i]) && Named(t[i], name, ext) && forall j | 0 <= j < i :: !Named(t[j], name, ext)
  {
    var i := FirstNamed(t, name, ext);
    if i < 64 && Live(t[i]) then i else 0
  }

  ghost function Lookup(d: Disk, o: Owner, k: Key): Option<Node> {
    if !IsDir(d, o, k.dir) || k.dir >= 2048 then None
    else
      var i := SlotNamed(TableOf(d, k.dir), k.name, k.ext);
      if i == 0 then None else Some(NodeAt(d, Slot(k.dir, i)))
  }

  // ---- tables ----

  /** In a well-kept table a name leads to a live slot exactly if that slot carries it and slot 0 does not. */
  lemma {:induction false} SlotNamedExact(t: Table, name: Name, ext: Ext, i: nat)
    requires WellKept(t) && 1 <= i < 64
    ensures SlotNamed(t, name, ext) == i <==> Live(t[i]) && Named(t[i], name, ext) && !Named(t[0], name, ext)
  {
    if Live(t[i]) && Named(t[i], name, ext) && !Named(t[0], name, ext) {
      forall j | 0 <= j < i
        ensures !Named(t[j], name, ext)
      {
        if j > 0 {
          assert Live(t[j]) ==> !SamePair(t[j], t[i]);
          assert !Live(t[j]) ==> t[j] == ZERO_ENTRY;
        }
      }
      FirstNamedIs(t, name, ext, i);
    }
  }

  lemma {:induction false} SlotNamedAfter(t: Table, t': Table, slot: nat, name: Name, ext: Ext)
    requires WellKept(t) && WellKept(t') && 1 <= slot < 64
    requires !Live(t[slot]) && Live(t'[slot]) && t' == t[slot := t'[slot]]
    ensures SlotNamed(t', name, ext)
         == if Named(t'[slot], name, ext) && !Named(t[0], name, ext) then slot else SlotNamed(t, name, ext)
  {
    var i, i' := SlotNamed(t, name, ext), SlotNamed(t', name, ext);
    SlotNamedExact(t', name, ext, slot);
    if i != 0 {
      SlotNamedExact(t, name, ext, i);
      SlotNamedExact(t', name, ext, i);
    }
    if i' != 0 {
      SlotNamedExact(t', name, ext, i');
      SlotNamedExact(t, name, ext, i');
    }
  }

  // ---- one successful write ----

  /** The clusters of a file are neither free nor a directory. */
  lemma {:induction false} FileClusterKept(
      d: Disk, o: Owner, req: Request, e: Disk, o': Owner, cs: seq<MapIndex>, s: Slot, c: MapIndex)
    requires Growth(d, o, req, e, o', cs) && LiveSlot(d, o, s) && !IsFolder(EntryOf(d, s)) && c in ChainOf(d, s)
    ensures e[c] == d[c]
  {
    assert ChainOk(d, o, s);
    assert c in o && o[c] == s;
    ChosenUnowned(d, o, cs);
    assert c !in cs;
  }

  lemma {:induction false} NodeKept(d: Disk, o: Owner, req: Request, e: Disk, o': Owner, cs: seq<MapIndex>, s: Slot)
    requires Growth(d, o, req, e, o', cs) && Packed(Fat(e)) && LiveSlot(d, o, s)
    ensures NodeAt(e, s) == NodeAt(d, s)
  {
    OldWalkKept(d, o, req, e, o', cs, s);
    if !IsFolder(EntryOf(d, s)) {
      var chain := ChainOf(d, s);
      forall k | 0 <= k < |chain|
        ensures e[chain[k]] == d[chain[k]]
      {
        FileClusterKept(d, o, req, e, o', cs, s, chain[k]);
      }
      ContentKept(d, e, chain);
    }
  }

  /** The directory that the request names has the new entry's name itself, so its slot 0 comes first in
      every search. */
  predicate OwnName(d: Disk, req: Request) {
    var k := NewKey(req);
    req.parent < 2048 && Named(TableOf(d, req.parent)[0], k.name, k.ext)
  }

  /** What a successful write stores. */
  function NodeWritten(d: Disk, req: Request, buf: seq<Byte>): Node
    requires FreeList(Fat(d)) != []
  {
    if req.size == 0 then Folder(FreeList(Fat(d))[0])
    else File(if req.size <= |buf| then buf[..req.size] else buf)
  }

  lemma {:induction false} NodeAdded(d: Disk, o: Owner, req: Request, buf: seq<Byte>)
    requires Tree(d, o) && IsDir(d, o, req.parent) && WriteCode(d, req) == 0
    requires req.size > 0 ==> 2048 * Need(req.size) <= |buf|
    ensures var e := WriteDisk(d, req, buf);
            NodeAt(e, NewSlot(d, req)) == NodeWritten(d, req, buf)
  {
    var e, o', cs := WriteDisk(d, req, buf), NewOwner(d, o, req), Chosen(Fat(d), req.size);
    WriteIsGrowth(d, o, req, buf);
    WriteStaysPacked(d, req, buf);
    PackedAscends(Fat(e));
    NewEntryThere(d, o, req, e, o', cs);
    if req.size > 0 {
      FileIsStored(d, req, buf);
      WalkIsChain(Fat(e), cs);
    }
  }

  lemma {:induction false} EntryAdded(
      d: Disk, o: Owner, req: Request, e: Disk, o': Owner, cs: seq<MapIndex>, name: Name, ext: Ext)
    requires Growth(d, o, req, e, o', cs) && Packed(Fat(e))
    ensures var t := TableOf(d, req.parent);
            SlotNamed(TableOf(e, req.parent), name, ext)
            == if Key(req.parent, name, ext) == NewKey(req) && !OwnName(d, req) then FreeSlot(t)
               else SlotNamed(t, name, ext)
  {
    var t := TableOf(d, req.parent);
    assert TableOk(d, o, req.parent);
    WellKeptAfterEntry(t, req, FreeList(Fat(d))[0]);
    NewPair(t, req, FreeList(Fat(d))[0]);
    SlotNamedAfter(t, TableOf(e, req.parent), FreeSlot(t), name, ext);
  }

  lemma {:induction false} NewFolderEmpty(t: Table, name: Name, parent: DWord, n: Name, x: Ext)
    requires IsNewTable(t, name, parent)
    ensures SlotNamed(t, n, x) == 0
  {
  }

  lemma {:induction false} LookupGrows(d: Disk, o: Owner, req: Request, e: Disk, o': Owner, cs: seq<MapIndex>, k: Key)
    requires Growth(d, o, req, e, o', cs) && Packed(Fat(e))
    ensures Lookup(e, o', k)
         == if k == NewKey(req) && !OwnName(d, req) then Some(NodeAt(e, NewSlot(d, req)))
            else Lookup(d, o, k)
  {
    DirsGrow(d, o, req, e, o', cs, k.dir);
    ChosenUnowned(d, o, cs);
    assert cs[0] in Members(cs);
    if req.size == 0 && k.dir == cs[0] {
      NewFolderBlank(d, o, req, e, o', cs);
      NewFolderEmpty(TableOf(e, k.dir), req.name, req.parent, k.name, k.ext);
    } else if IsDir(d, o, k.dir) {
      LookupKept(d, o, req, e, o', cs, k);
    }
  }

  lemma {:induction false} LookupKept(d: Disk, o: Owner, req: Request, e: Disk, o': Owner, cs: seq<MapIndex>, k: Key)
    requires Growth(d, o, req, e, o', cs) && Packed(Fat(e))
    requires IsDir(d, o, k.dir) && IsDir(e, o', k.dir)
    ensures Lookup(e, o', k)
         == if k == NewKey(req) && !OwnName(d, req) then Some(NodeAt(e, NewSlot(d, req)))
            else Lookup(d, o, k)
  {
    DirAllocated(d, o, k.dir);
    if k.dir == req.parent {
      EntryAdded(d, o, req, e, o', cs, k.name, k.ext);
    } else {
      assert k.dir !in cs;
      assert TableOf(e, k.dir) == TableOf(d, k.dir);
    }
    var i := SlotNamed(TableOf(d, k.dir), k.name, k.ext);
    if i != 0 {
      NodeKept(d, o, req, e, o', cs, Slot(k.dir, i));
    }
  }

  /** A write that returns 0 adds its key to the map, whatever the key was, and changes no other; only a
      name that the directory itself has stays hidden behind slot 0. */
  lemma {:induction false} WriteAddsKey(d: Disk, o: Owner, req: Request, buf: seq<Byte>, k: Key)
    requires Tree(d, o) && IsDir(d, o, req.parent) && WriteCode(d, req) == 0
    requires req.size > 0 ==> 2048 * Need(req.size) <= |buf|
    ensures var e, o' := WriteDisk(d, req, buf), NewOwner(d, o, req);
            && Tree(e, o')
            && Lookup(e, o', k)
               == if k == NewKey(req) && !OwnName(d, req) then Some(NodeWritten(d, req, buf))
                  else Lookup(d, o, k)
  {
    var e, o', cs := WriteDisk(d, req, buf), NewOwner(d, o, req), Chosen(Fat(d), req.size);
    WriteIsGrowth(d, o, req, buf);
    WriteStaysPacked(d, req, buf);
    GrowthKeepsTree(d, o, req, e, o', cs);
    LookupGrows(d, o, req, e, o', cs, k);
    NodeAdded(d, o, req, buf);
  }

  // ---- reading ----

  /** The name is the directory's own, or it is blank while the table has a blank slot. */
  predicate Shadowed(t: Table, name: Name, ext: Ext) {
    Named(t[0], name, ext) || (name == NO_NAME && ext == NO_EXT && FreeSlot(t) != 0)
  }

  lemma {:induction false} ShadowExact(t: Table, name: Name, ext: Ext)
    requires WellKept(t)
    ensures var i := FirstNamed(t, name, ext);
            Shadowed(t, name, ext) <==> i < 64 && SlotNamed(t, name, ext) == 0
    ensures var i := FirstNamed(t, name, ext);
            i < 64 && SlotNamed(t, name, ext) == 0 ==> i == 0 || t[i] == ZERO_ENTRY
  {
    var i := FirstNamed(t, name, ext);
    var slot := FreeSlot(t);
    if 0 < i < 64 && !Live(t[i]) {
      assert t[i] == ZERO_ENTRY;
      assert slot != 0;
    }
    if slot != 0 {
      assert t[slot] == ZERO_ENTRY;
    }
  }

  lemma {:induction false} FileSized(d: Disk, o: Owner, s: Slot)
    requires Tree(d, o) && LiveSlot(d, o, s) && !IsFolder(EntryOf(d, s))
    ensures var size := EntryOf(d, s).filesize;
            NodeAt(d, s) == File(Content(d, ChainOf(d, s))[..size]) && size <= |Content(d, ChainOf(d, s))|
  {
    assert ChainOk(d, o, s);
  }

  lemma {:induction false} ContentStarts(d: Disk, cs: seq<MapIndex>)
    requires cs != []
    ensures Content(d, cs)[..2048] == d[cs[0]]
  {
    var n := |cs| - 1;
    if n == 0 {
      assert Content(d, cs[..0]) == [];
    } else {
      ContentStarts(d, cs[..n]);
    }
  }

  /** A name that is not in the map is reported missing if and only if it is not shadowed; a shadowed one
      reads cluster 0 instead. A file is refused if and only if the caller's size is too small, and what is
      copied starts with the file's bytes, up to 512 of them. */
  ghost predicate ReadsAs(d: Disk, r: Request, t: Table, found: Option<Node>) {
    && (found.None? ==> ReadCode(d, r) == if Shadowed(t, r.name, r.ext) then 0 else 3)
    && (Shadowed(t, r.name, r.ext) ==> found.None? && ReadCode(d, r) == 0 && ReadCluster(d, r) == 0)
    && (found.Some? && found.value.Folder? ==> ReadCode(d, r) == 0 && ReadCluster(d, r) == found.value.cluster < 512)
    && (found.Some? && found.value.File? ==>
        var b := found.value.bytes;
        && ReadCode(d, r) == (if r.size < |b| then 2 else 0)
        && (r.size >= |b| ==>
            ReadCluster(d, r) < 2048 && forall i | 0 <= i < 512 && i < |b| :: d[ReadCluster(d, r)][i] == b[i]))
  }

  /** Reading agrees with the map. */
  lemma {:induction false} ReadFollowsMap(d: Disk, o: Owner, r: Request)
    requires Tree(d, o) && IsDir(d, o, r.parent)
    ensures r.parent < 512 && ReadsAs(d, r, TableOf(d, r.parent), Lookup(d, o, Key(r.parent, r.name, r.ext)))
  {
    var t := TableOf(d, r.parent);
    DirAllocated(d, o, r.parent);
    assert TableOk(d, o, r.parent);
    ShadowExact(t, r.name, r.ext);
    var i := SlotNamed(t, r.name, r.ext);
    if i != 0 {
      LiveCluster(d, o, Slot(r.parent, i));
      LiveRead(d, o, r, i);
      if !IsFolder(t[i]) {
        FileStarts(d, o, Slot(r.parent, i));
      }
    } else if FirstNamed(t, r.name, r.ext) == 0 {
      HeaderReadsBoot(d, o, r);
    }
  }

  /** What read leaves in the caller's buffer, whatever was there before, is the file's content if and only
      if the file has at most 512 bytes: read copies one block. */
  lemma {:induction false} ReadWhole(d: Disk, o: Owner, r: Request)
    requires Tree(d, o) && IsDir(d, o, r.parent)
    requires var found := Lookup(d, o, Key(r.parent, r.name, r.ext));
             found.Some? && found.value.File? && |found.value.bytes| <= r.size
    ensures ReadCode(d, r) == 0 && ReadCluster(d, r) < 2048
    ensures var b := Lookup(d, o, Key(r.parent, r.name, r.ext)).value.bytes;
            var block := d[ReadCluster(d, r)][..512];
            (forall before: seq<Byte> | 512 <= |before| && |b| <= |before| :: Patch(before, 0, block)[..|b|] == b)
            <==> |b| <= 512
  {
    ReadFollowsMap(d, o, r);
    var b := Lookup(d, o, Key(r.parent, r.name, r.ext)).value.bytes;
    BlockCovers(d[ReadCluster(d, r)][..512], b);
  }

  lemma {:induction false} BlockCovers(block: seq<Byte>, b: seq<Byte>)
    requires |block| == 512 && forall i | 0 <= i < 512 && i < |b| :: block[i] == b[i]
    ensures (forall before: seq<Byte> | 512 <= |before| && |b| <= |before| :: Patch(before, 0, block)[..|b|] == b)
            <==> |b| <= 512
  {
    if |b| > 512 {
      var before := b[512 := if b[512] == 0 then 1 else 0];
      assert Patch(before, 0, block)[..|b|][512] != b[512];
    }
  }

  /** A directory's header holds its parent's number in the wrong half, so its low half is 0. */
  lemma {:induction false} HeaderReadsBoot(d: Disk, o: Owner, r: Request)
    requires Tree(d, o) && IsDir(d, o, r.parent)
    ensures TableOf(d, r.parent)[0].clusterLow == 0 && TableOf(d, r.parent)[0].filesize == 0
  {
    assert TableOk(d, o, r.parent);
    if r.parent != 2 {
      assert LiveSlot(d, o, o[r.parent]);
    }
  }

  lemma {:induction false} LiveCluster(d: Disk, o: Owner, s: Slot)
    requires Tree(d, o) && LiveSlot(d, o, s)
    ensures EntryOf(d, s).clusterLow == EntryCluster(EntryOf(d, s)) < 512
    ensures ChainOf(d, s) != [] && ChainOf(d, s)[0] == EntryCluster(EntryOf(d, s))
  {
    assert ChainOk(d, o, s);
    WalkStart(Fat(d), EntryCluster(EntryOf(d, s)));
  }

  /** A live file's first cluster starts with the file's bytes. */
  lemma {:induction false} FileStarts(d: Disk, o: Owner, s: Slot)
    requires Tree(d, o) && LiveSlot(d, o, s) && !IsFolder(EntryOf(d, s))
    ensures var e := EntryOf(d, s);
            var node := NodeAt(d, s);
            && EntryCluster(e) < 512
            && node.File? && |node.bytes| == e.filesize
            && forall j | 0 <= j < 512 && j < e.filesize :: d[EntryCluster(e)][j] == node.bytes[j]
  {
    LiveCluster(d, o, s);
    FileSized(d, o, s);
    ContentStarts(d, ChainOf(d, s));
    var size, all := EntryOf(d, s).filesize, Content(d, ChainOf(d, s));
    assert forall j | 0 <= j < 512 && j < size :: all[..size][j] == all[..2048][j];
  }

  lemma {:induction false} LiveRead(d: Disk, o: Owner, r: Request, i: nat)
    requires Tree(d, o) && IsDir(d, o, r.parent) && r.parent < 512
    requires i != 0 && i == SlotNamed(TableOf(d, r.parent), r.name, r.ext)
    ensures var e := TableOf(d, r.parent)[i];
            var node := NodeAt(d, Slot(r.parent, i));
            && ReadCode(d, r) == (if r.size < e.filesize then 2 else 0)
            && (node.Folder? ==> e.filesize == 0)
            && (node.File? ==> |node.bytes| == e.filesize)
            && (ReadCode(d, r) == 0 ==> ReadCluster(d, r) == e.clusterLow == EntryCluster(e) < 512)
  {
    var s := Slot(r.parent, i);
    assert TableOk(d, o, r.parent);
    DirAllocated(d, o, r.parent);
    LiveCluster(d, o, s);
    if !IsFolder(EntryOf(d, s)) {
      FileSized(d, o, s);
    }
  }
}
