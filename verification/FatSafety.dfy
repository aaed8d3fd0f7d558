/** What a write request may touch, at every disk write it makes, from any mounted disk. */
module FatSafety {
  import opened Bytes
  import opened Layout
  import opened FatSpec
  import opened FatChains

  // ---- which disk writes a request makes ----

  /** g is f with some empty entries filled in, each with a link to a larger cluster that was empty too, or an end. */
  ghost predicate Extends(f: FatTable, g: FatTable) {
    forall c: MapIndex ::
      || g[c] == f[c]
      || (2 <= c && f[c] == EMPTY && (g[c] == END_OF_FILE || (c < g[c] < 512 && f[g[c]] == EMPTY)))
  }

  ghost predicate Allowed(d: Disk, req: Request, w: DiskWrite)
    requires Accepted(d, req)
  {
    || w == ParentWrite(d, req)
    || (2 <= w.cluster < 512 && Fat(d)[w.cluster] == EMPTY)
    || (w.cluster == 1 && Extends(Fat(d), DecodeFat(w.data)))
  }

  ghost predicate FatOrFree(f: FatTable, w: DiskWrite) {
    || (2 <= w.cluster < 512 && f[w.cluster] == EMPTY)
    || (w.cluster == 1 && Extends(f, DecodeFat(w.data)))
  }

  lemma {:induction false} FatWriteExtends(f: FatTable, g: FatTable)
    requires Extends(f, g)
    ensures FatOrFree(f, FatWrite(g))
  {
    FatRoundTrip(g);
  }

  lemma {:induction false} LinkedExtends(f: FatTable, cs: seq<MapIndex>, n: nat)
    requires Takeable(f, cs) && n < |cs|
    ensures Extends(f, Linked(f, cs, n))
  {
    LinkedAt(f, cs, n);
    var g := Linked(f, cs, n);
    forall c: MapIndex | g[c] != f[c]
      ensures 2 <= c && f[c] == EMPTY && c < g[c] < 512 && f[g[c]] == EMPTY
    {
      assert c in cs[..n];
      var j :| 0 <= j < n && cs[..n][j] == c;
      assert g[cs[j]] == cs[j + 1] && cs[j] < cs[j + 1];
    }
  }

  lemma {:induction false} ClosedExtends(f: FatTable, cs: seq<MapIndex>)
    requires Takeable(f, cs)
    ensures Extends(f, Closed(f, cs))
  {
    LinkedExtends(f, cs, |cs| - 1);
  }

  lemma {:induction false} RoundsAllowed(f: FatTable, cs: seq<MapIndex>, data: seq<Cluster>, n: nat)
    requires Takeable(f, cs) && n < |cs| == |data|
    ensures forall w | w in Rounds(f, cs, data, n) :: FatOrFree(f, w)
  {
    if n > 0 {
      RoundsAllowed(f, cs, data, n - 1);
      LinkedExtends(f, cs, n);
      FatWriteExtends(f, Linked(f, cs, n));
      assert FatOrFree(f, DiskWrite(cs[n - 1], data[n - 1]));
    }
  }

  lemma {:induction false} ChainAllowed(f: FatTable, cs: seq<MapIndex>, data: seq<Cluster>, complete: bool)
    requires Takeable(f, cs) && |data| == |cs|
    ensures forall w | w in ChainLog(f, cs, data, complete) :: FatOrFree(f, w)
  {
    ClosedExtends(f, cs);
    FatWriteExtends(f, Closed(f, cs));
    RoundsAllowed(f, cs, data, |cs| - 1);
    assert FatOrFree(f, DiskWrite(cs[|cs| - 1], data[|cs| - 1]));
  }

  lemma {:induction false} ContentAllowed(d: Disk, req: Request, buf: seq<Byte>)
    requires FreeList(Fat(d)) != []
    ensures forall w | w in ContentLog(d, req, buf) :: FatOrFree(Fat(d), w)
  {
    var f := Fat(d);
    var cs := Chosen(f, req.size);
    ChosenTakeable(f, req.size);
    if req.size == 0 {
      ClosedExtends(f, cs);
      assert Closed(f, cs) == f[cs[0] := END_OF_FILE];
      FatWriteExtends(f, f[cs[0] := END_OF_FILE]);
    } else {
      ChainAllowed(f, cs, Chunks(buf, |cs|), Suffices(f, req.size));
    }
  }

  lemma {:induction false} LogAllowed(d: Disk, req: Request, buf: seq<Byte>)
    requires Accepted(d, req)
    ensures forall w | w in WriteLog(d, req, buf) :: Allowed(d, req, w)
  {
    var p := ParentWrite(d, req);
    var d1 := d[p.cluster := p.data];
    ContentAllowed(d1, req, buf);
    assert Fat(d1) == Fat(d);
  }

  // ---- the disk after any number of them ----

  predicate NotFree(f: FatTable, c: nat) {
    c < 2 || c >= 512 || f[c] != EMPTY
  }

  /** e differs from d only in free clusters, in free FAT entries that Extends allows, and in one
      slot of the parent's table. */
  ghost predicate Confined(d: Disk, req: Request, e: Disk)
    requires Accepted(d, req)
  {
    && Extends(Fat(d), Fat(e))
    && (forall c: ClusterNo | c != 1 && c != req.parent && NotFree(Fat(d), c) :: e[c] == d[c])
    && (NotFree(Fat(d), req.parent) ==> e[req.parent] == d[req.parent] || e[req.parent] == ParentWrite(d, req).data)
  }

  lemma {:induction false} ConfinedStep(d: Disk, req: Request, e: Disk, w: DiskWrite)
    requires Accepted(d, req) && Confined(d, req, e) && Allowed(d, req, w)
    ensures Confined(d, req, e[w.cluster := w.data])
  {
    if w.cluster == 1 {
      assert w != ParentWrite(d, req);
    } else {
      assert Fat(e[w.cluster := w.data]) == Fat(e);
    }
  }

  lemma {:induction false} ReplayConfined(d: Disk, req: Request, log: seq<DiskWrite>)
    requires Accepted(d, req) && forall w | w in log :: Allowed(d, req, w)
    ensures Confined(d, req, Replay(d, log))
  {
    if log != [] {
      var last := log[|log| - 1];
      ReplayConfined(d, req, log[..|log| - 1]);
      ConfinedStep(d, req, Replay(d, log[..|log| - 1]), last);
    }
  }

  /** At every disk write that the request makes, only what Confined names has changed so far. */
  lemma {:induction false} EveryWriteConfined(d: Disk, req: Request, buf: seq<Byte>, k: nat)
    requires Accepted(d, req) && k <= |WriteLog(d, req, buf)|
    ensures Confined(d, req, Replay(d, WriteLog(d, req, buf)[..k]))
  {
    LogAllowed(d, req, buf);
    ReplayConfined(d, req, WriteLog(d, req, buf)[..k]);
  }

  lemma {:induction false} FirstStays(d: Disk, p: DiskWrite, rest: seq<DiskWrite>)
    requires forall w | w in rest :: w.cluster != p.cluster
    ensures Replay(d, [p] + rest)[p.cluster] == p.data
  {
    FirstWrite(d, p, rest, []);
    OthersKept(d[p.cluster := p.data], rest, p.cluster);
  }

  /** From its first disk write on, the request leaves the parent's table with the new entry in it. */
  lemma {:induction false} ParentStored(d: Disk, req: Request, buf: seq<Byte>, k: nat)
    requires Accepted(d, req) && 0 < k <= |WriteLog(d, req, buf)| && NotFree(Fat(d), req.parent)
    ensures Replay(d, WriteLog(d, req, buf)[..k])[req.parent] == ParentWrite(d, req).data
  {
    var p := ParentWrite(d, req);
    var content := ContentLog(d[p.cluster := p.data], req, buf);
    var rest := content[..k - 1];
    assert WriteLog(d, req, buf)[..k] == [p] + rest;
    ContentAllowed(d[p.cluster := p.data], req, buf);
    forall w | w in rest
      ensures w.cluster != p.cluster
    {
      assert w in content;
    }
    FirstStays(d, p, rest);
  }
}
