/** Files as chains on the disk: they survive every disk write of every later request, and what a
    successful write stored is what a later read returns. */
module FatFiles {
  import opened Bytes
  import opened Layout
  import opened FatSpec
  import opened FatSafety

  // ---- chains and files ----

  /** cs is a complete chain: each entry links to the next and the last one ends it. */
  ghost predicate IsChain(f: FatTable, cs: seq<MapIndex>) {
    && cs != []
    && (forall k | 0 <= k < |cs| :: 2 <= cs[k])
    && (forall k | 0 <= k < |cs| - 1 :: f[cs[k]] == cs[k + 1])
    && f[cs[|cs| - 1]] == END_OF_FILE
  }

  /** Slot idx of the table in the allocated cluster dir is a live entry whose complete chain is cs. */
  ghost predicate FileAt(d: Disk, dir: nat, idx: nat, cs: seq<MapIndex>) {
    && 2 <= dir < 512 && Fat(d)[dir] != EMPTY
    && 1 <= idx < 64 && Live(TableOf(d, dir)[idx])
    && IsChain(Fat(d), cs)
    && EntryCluster(TableOf(d, dir)[idx]) == cs[0]
  }

  /** The file is still there: same entry, same chain, same bytes. */
  ghost predicate FileKept(d: Disk, e: Disk, dir: nat, idx: nat, cs: seq<MapIndex>) {
    && FileAt(d, dir, idx, cs) && FileAt(e, dir, idx, cs)
    && TableOf(e, dir)[idx] == TableOf(d, dir)[idx]
    && forall k | 0 <= k < |cs| :: e[cs[k]] == d[cs[k]]
  }

  lemma {:induction false} ChainKept(f: FatTable, g: FatTable, cs: seq<MapIndex>)
    requires IsChain(f, cs) && Extends(f, g)
    ensures IsChain(g, cs)
    ensures forall k | 0 <= k < |cs| :: f[cs[k]] != EMPTY
  {
    forall k | 0 <= k < |cs|
      ensures f[cs[k]] != EMPTY && g[cs[k]] == f[cs[k]]
    {
      if k < |cs| - 1 {
        assert f[cs[k]] == cs[k + 1];
      }
    }
  }

  /** The parent's table, if its cluster is not free, is the old one or the one with the new entry. */
  lemma {:induction false} ParentTableKept(d: Disk, req: Request, e: Disk)
    requires Accepted(d, req) && Confined(d, req, e) && NotFree(Fat(d), req.parent)
    ensures TableOf(e, req.parent) == TableOf(d, req.parent) || TableOf(e, req.parent) == ParentTable(d, req)
  {
    TableRoundTrip(ParentTable(d, req));
  }

  /** A request leaves headers and live entries of allocated clusters alone. */
  lemma {:induction false} SlotKept(d: Disk, req: Request, e: Disk, c: nat, i: nat)
    requires Accepted(d, req) && Confined(d, req, e) && 2 <= c < 512 && Fat(d)[c] != EMPTY
    requires i < 64 && (i == 0 || Live(TableOf(d, c)[i]))
    ensures Fat(e)[c] != EMPTY && TableOf(e, c)[i] == TableOf(d, c)[i]
  {
    if c == req.parent {
      ParentTableKept(d, req, e);
    } else {
      assert TableOf(e, c) == TableOf(d, c);
    }
  }

  lemma {:induction false} ConfinedKeepsFile(d: Disk, req: Request, e: Disk, dir: nat, idx: nat, cs: seq<MapIndex>)
    requires Accepted(d, req) && Confined(d, req, e)
    requires FileAt(d, dir, idx, cs) && req.parent !in cs
    ensures FileKept(d, e, dir, idx, cs)
  {
    ChainKept(Fat(d), Fat(e), cs);
    if dir == req.parent {
      ParentTableKept(d, req, e);
    }
  }

  /** A request that is accepted with one of the file's own clusters as its parent overwrites file content. */
  lemma {:induction false} OwnClusterDamaged(d: Disk, req: Request, e: Disk, dir: nat, idx: nat, cs: seq<MapIndex>)
    requires Accepted(d, req) && FileAt(d, dir, idx, cs) && req.parent in cs
    requires e[req.parent] == ParentWrite(d, req).data
    ensures !FileKept(d, e, dir, idx, cs)
  {
    TableRoundTrip(ParentTable(d, req));
    var slot := FreeSlot(TableOf(d, req.parent));
    assert Live(TableOf(e, req.parent)[slot]) && !Live(TableOf(d, req.parent)[slot]);
  }

  /** Crash safety: whichever disk write of the request was the last one, a file that was complete before
      keeps its entry, its chain and its bytes if and only if no write was made yet or the request did not
      name one of the file's own clusters as its parent directory. */
  lemma {:induction false} FilesSafeAtEveryWrite(
      d: Disk, req: Request, buf: seq<Byte>, k: nat, dir: nat, idx: nat, cs: seq<MapIndex>)
    requires k <= |WriteLog(d, req, buf)| && FileAt(d, dir, idx, cs)
    ensures FileKept(d, Replay(d, WriteLog(d, req, buf)[..k]), dir, idx, cs) <==> k == 0 || req.parent !in cs
  {
    if k > 0 {
      EveryWriteConfined(d, req, buf, k);
      var e := Replay(d, WriteLog(d, req, buf)[..k]);
      if req.parent in cs {
        ChainKept(Fat(d), Fat(d), cs);
        ParentStored(d, req, buf, k);
        OwnClusterDamaged(d, req, e, dir, idx, cs);
      } else {
        ConfinedKeepsFile(d, req, e, dir, idx, cs);
      }
    }
  }

  // ---- walks ----

  /** Every link leads to a larger cluster of the map. */
  ghost predicate LinksAscend(f: FatTable) {
    forall c: MapIndex | 2 <= c && f[c] != EMPTY :: f[c] == END_OF_FILE || c < f[c] < 512
  }

  /** The clusters that n steps of a walk from c visit. */
  function Visit(f: FatTable, c: nat, n: nat): seq<MapIndex>
    decreases n
  {
    if n == 0 || c < 2 || c >= 512 || f[c] == EMPTY then []
    else if f[c] == END_OF_FILE then [c]
    else [c] + Visit(f, f[c], n - 1)
  }

  /** A walk takes no more steps than there are entries. */
  function Walk(f: FatTable, c: nat): seq<MapIndex> {
    Visit(f, c, |f|)
  }

  lemma {:induction false} VisitIsChain(f: FatTable, cs: seq<MapIndex>, n: nat)
    requires IsChain(f, cs) && |cs| <= n
    ensures Visit(f, cs[0], n) == cs
  {
    if |cs| > 1 {
      assert f[cs[0]] == cs[1];
      assert IsChain(f, cs[1..]) by {
        assert forall k | 0 <= k < |cs| - 1 :: cs[1..][k] == cs[k + 1];
        assert forall k | 0 <= k < |cs| - 2 :: f[cs[1..][k]] == cs[1..][k + 1];
      }
      VisitIsChain(f, cs[1..], n - 1);
      assert cs == [cs[0]] + cs[1..];
    }
  }

  lemma {:induction false} ChainClimbs(f: FatTable, cs: seq<MapIndex>, k: nat)
    requires LinksAscend(f) && IsChain(f, cs) && k < |cs|
    ensures k <= cs[k]
  {
    if k > 0 {
      ChainClimbs(f, cs, k - 1);
      assert f[cs[k - 1]] == cs[k];
    }
  }

  /** With ascending links, the walk from a chain's first cluster visits that chain. */
  lemma {:induction false} WalkIsChain(f: FatTable, cs: seq<MapIndex>)
    requires LinksAscend(f) && IsChain(f, cs)
    ensures Walk(f, cs[0]) == cs
  {
    ChainClimbs(f, cs, |cs| - 1);
    VisitIsChain(f, cs, |f|);
  }

  /** With ascending links every walk ends by itself: more steps than there are entries left visit nothing more. */
  lemma {:induction false} WalksEnd(f: FatTable, c: nat, n: nat, m: nat)
    requires LinksAscend(f) && 512 <= c + n && n <= m
    ensures Visit(f, c, n) == Visit(f, c, m)
    decreases n
  {
    if 2 <= c < 512 && f[c] != EMPTY && f[c] != END_OF_FILE {
      WalksEnd(f, f[c], n - 1, m - 1);
    }
  }

  /** Walks stay finite at every disk write of every request: no write ever makes a link that does not ascend. */
  lemma {:induction false} LinksAscendAtEveryWrite(d: Disk, req: Request, buf: seq<Byte>, k: nat)
    requires k <= |WriteLog(d, req, buf)|
    requires LinksAscend(Fat(d))
    ensures LinksAscend(Fat(Replay(d, WriteLog(d, req, buf)[..k])))
  {
    if Accepted(d, req) {
      EveryWriteConfined(d, req, buf, k);
    }
  }
}
