/** Directory tables of a file system that started fresh: what every accepted request keeps true of them. */
module FatTables {
  import opened Bytes
  import opened Layout
  import opened FatSpec

  const NO_NAME: Name := Zeros(8)
  const NO_EXT: Ext := Zeros(3)

  predicate IsFolder(e: Entry) {
    e.attribute == SUBDIRECTORY
  }

  ghost predicate SamePair(a: Entry, b: Entry) {
    a.name == b.name && a.ext == b.ext
  }

  /** The slots behind the header of a directory of this name are blank or live; live ones have a name, folders
      are the ones of size 0; and no two live entries have the same name and extension, unless they are the
      directory's own, which the duplicate check lets through. */
  ghost predicate KeptBehind(t: Table, name: Name) {
    && name != NO_NAME && t[0].ext == NO_EXT
    && (forall i | 1 <= i < 64 && !Live(t[i]) :: t[i] == ZERO_ENTRY)
    && (forall i | 1 <= i < 64 && Live(t[i]) :: t[i].name != NO_NAME || t[i].ext != NO_EXT)
    && (forall i | 1 <= i < 64 && Live(t[i]) :: IsFolder(t[i]) <==> t[i].filesize == 0)
    && (forall i, j | 1 <= i < j < 64 && Live(t[i]) && Live(t[j]) ::
          SamePair(t[i], t[j]) ==> t[i].name == name && t[i].ext == NO_EXT)
  }

  /** Slot 0 is a directory header, and the slots behind it are kept. */
  ghost predicate WellKept(t: Table) {
    IsDirectory(t) && KeptBehind(t, t[0].name)
  }

  /** What a folder's cluster held decides whether its table is kept once the header is in. */
  lemma {:induction false} HeadedKept(t: Table, t': Table, name: Name, parent: DWord)
    requires t' == t[0 := Header(t[0], name, parent)]
    ensures IsDirectory(t') && (WellKept(t') <==> KeptBehind(t, name))
  {
    assert forall i | 1 <= i < 64 :: t'[i] == t[i];
  }

  /** A request that passes validation and finds a slot names something, and nothing that is there. */
  lemma {:induction false} NewPair(t: Table, req: Request, c: DWord)
    requires WellKept(t) && ValidateTable(t, req) == 0 && FreeSlot(t) != 0
    ensures var e := NewEntry(t[FreeSlot(t)], req, c);
            && (e.name != NO_NAME || e.ext != NO_EXT)
            && (req.size == 0 ==> e.ext == NO_EXT && e.name != NO_NAME)
            && (forall i | 1 <= i < 64 && Live(t[i]) && SamePair(t[i], e) :: SamePair(e, t[0]))
  {
    var slot := FreeSlot(t);
    var e := NewEntry(t[slot], req, c);
    var h := FirstClash(t, req);
    assert t[slot] == ZERO_ENTRY;
    assert h == 0 ==> SamePair(e, t[0]);
    assert h == 64 ==> !Clashes(t[slot], req);
  }

  lemma {:induction false} WellKeptAfterEntry(t: Table, req: Request, c: DWord)
    requires WellKept(t) && ValidateTable(t, req) == 0 && FreeSlot(t) != 0
    ensures WellKept(t[FreeSlot(t) := NewEntry(t[FreeSlot(t)], req, c)])
  {
    var slot := FreeSlot(t);
    var e := NewEntry(t[slot], req, c);
    var t' := t[slot := e];
    NewPair(t, req, c);
    assert forall i | 0 <= i < 64 && i != slot :: t'[i] == t[i];
  }

  /** The duplicate check is exact up to two names: it misses the directory's own, and it also refuses
      the blank name while the table has a blank slot. */
  lemma {:induction false} DuplicateExact(t: Table, req: Request)
    requires WellKept(t) && 2 <= req.parent <= 512
    ensures ValidateTable(t, req) == 1 <==>
      && !Clashes(t[0], req)
      && ((exists i | 1 <= i < 64 :: Live(t[i]) && Clashes(t[i], req))
          || (Clashes(ZERO_ENTRY, req) && FreeSlot(t) != 0))
  {
    var h, slot := FirstClash(t, req), FreeSlot(t);
    if 0 < h < 64 && !Live(t[h]) {
      assert t[h] == ZERO_ENTRY;
    }
    if slot != 0 {
      assert t[slot] == ZERO_ENTRY;
    }
  }

  /** The name that it misses: a second folder "root" is let into a root that has one already. */
  lemma {:induction false} DuplicateMissed()
    ensures var req := Request(RootName(), NO_EXT, 2, 0);
            var root := seq(64, _ => ZERO_ENTRY)[0 := Header(ZERO_ENTRY, RootName(), ROOT)];
            var t := root[1 := NewEntry(ZERO_ENTRY, req, 3)];
            IsDirectory(t) && Live(t[1]) && Clashes(t[1], req) && ValidateTable(t, req) == 0
  {
    var req := Request(RootName(), NO_EXT, 2, 0);
    var root := seq(64, _ => ZERO_ENTRY)[0 := Header(ZERO_ENTRY, RootName(), ROOT)];
    var t := root[1 := NewEntry(ZERO_ENTRY, req, 3)];
    assert Clashes(t[0], req);
  }

  /** The table of a new folder: a header and blank entries. */
  ghost predicate IsNewTable(t: Table, name: Name, parent: DWord) {
    t[0] == Header(ZERO_ENTRY, name, parent) && forall i | 1 <= i < 64 :: t[i] == ZERO_ENTRY
  }

  ghost predicate BlankEntries(t: Table) {
    forall i | 0 <= i < 64 :: t[i] == ZERO_ENTRY
  }

  ghost predicate ZeroBytes(c: seq<Byte>) {
    forall k | 0 <= k < |c| :: c[k] == 0
  }

  lemma {:induction false} ZeroDecoded(b: seq<Byte>)
    requires |b| == 32 && ZeroBytes(b)
    ensures DecodeEntry(b) == ZERO_ENTRY
  {
    assert b[0..8] == Zeros(8) && b[8..11] == Zeros(3);
  }

  lemma {:induction false} ZeroEncoded(e: Entry)
    requires e == ZERO_ENTRY
    ensures ZeroBytes(EncodeEntry(e))
  {
  }

  lemma {:induction false} BlankEntry(b: seq<Byte>, e: Entry)
    requires |b| == 32 && b == EncodeEntry(e) && e == DecodeEntry(b)
    ensures e == ZERO_ENTRY <==> ZeroBytes(b)
  {
    if ZeroBytes(b) {
      ZeroDecoded(b);
    } else if e == ZERO_ENTRY {
      ZeroEncoded(e);
    }
  }

  /** A table has only blank entries exactly if its cluster is all zero. */
  lemma {:induction false} BlankIsZero(c: Cluster, t: Table)
    requires t == DecodeTable(c)
    ensures BlankEntries(t) <==> ZeroBytes(c)
  {
    forall i | 0 <= i < 64
      ensures t[i] == ZERO_ENTRY <==> ZeroBytes(c[32 * i..32 * i + 32])
    {
      TableEntry(c, i);
      EntryBytesRoundTrip(c[32 * i..32 * i + 32]);
      BlankEntry(c[32 * i..32 * i + 32], t[i]);
    }
    ZeroPieces(c);
    if BlankEntries(t) {
      assert forall i | 0 <= i < 64 :: t[i] == ZERO_ENTRY && ZeroBytes(c[32 * i..32 * i + 32]);
    }
    if ZeroBytes(c) {
      assert forall i | 0 <= i < 64 :: ZeroBytes(c[32 * i..32 * i + 32]) && t[i] == ZERO_ENTRY;
    }
  }

  lemma {:induction false} ZeroPieces(c: Cluster)
    ensures ZeroBytes(c) <==> forall i | 0 <= i < 64 :: ZeroBytes(c[32 * i..32 * i + 32])
  {
    forall k | 0 <= k < 2048 && (forall i | 0 <= i < 64 :: ZeroBytes(c[32 * i..32 * i + 32]))
      ensures c[k] == 0
    {
      var i := k / 32;
      assert ZeroBytes(c[32 * i..32 * i + 32]);
      assert c[k] == c[32 * i..32 * i + 32][k - 32 * i];
    }
  }

  /** A table's bytes start with those of its header. */
  lemma {:induction false} HeadBytes(c: Cluster, t: Table)
    requires t == DecodeTable(c)
    ensures c[..32] == EncodeEntry(t[0])
  {
    TableEntry(c, 0);
    EntryBytesRoundTrip(c[0..32]);
  }

  lemma {:induction false} HeadedBlank(t: Table, t': Table, name: Name, parent: DWord)
    requires BlankEntries(t) && t' == t[0 := Header(t[0], name, parent)]
    ensures IsNewTable(t', name, parent)
  {
  }

  /** That table is well kept, passes the directory check, and offers slot 1 first. */
  lemma {:induction false} NewTableWellKept(t: Table, name: Name, parent: DWord)
    requires IsNewTable(t, name, parent)
    requires name != NO_NAME
    ensures WellKept(t) && FreeSlot(t) == 1 && ParentLink(t[0]) == parent && t[0].name == name
  {
    assert !Live(t[1]);
  }
}
