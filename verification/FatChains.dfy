/** FAT chains: what linking a list of free clusters does to a FAT. */
module FatChains {
  import opened Bytes
  import opened Layout
  import opened FatSpec

  ghost predicate Ascending(cs: seq<MapIndex>) {
    forall k, l | 0 <= k < l < |cs| :: cs[k] < cs[l]
  }

  /** cs is a list of distinct empty entries that a write may take. */
  ghost predicate Takeable(f: FatTable, cs: seq<MapIndex>) {
    && cs != []
    && Ascending(cs)
    && forall k | 0 <= k < |cs| :: 2 <= cs[k] && f[cs[k]] == EMPTY
  }

  /** s lists every empty entry from i on, once each, in ascending order. */
  ghost predicate ListsEmpty(f: FatTable, i: nat, s: seq<MapIndex>) {
    && Ascending(s)
    && (forall k | 0 <= k < |s| :: i <= s[k] && f[s[k]] == EMPTY)
    && (forall c: MapIndex | i <= c && f[c] == EMPTY :: c in s)
  }

  lemma {:induction false} FreeFromExact(f: FatTable, i: nat)
    ensures ListsEmpty(f, i, FreeFrom(f, i))
    decreases |f| - i
  {
    if i < 512 {
      FreeFromExact(f, i + 1);
      var rest := FreeFrom(f, i + 1);
      if f[i] == EMPTY {
        var s := [i] + rest;
        assert forall k | 0 < k < |s| :: s[k] == rest[k - 1];
        assert forall c: MapIndex | i <= c && f[c] == EMPTY :: c == s[0] || c in rest;
        assert ListsEmpty(f, i, s);
      }
    }
  }

  lemma {:induction false} ChosenTakeable(f: FatTable, size: nat)
    requires FreeList(f) != []
    ensures Takeable(f, Chosen(f, size))
    ensures Chosen(f, size) <= FreeList(f)
    ensures Chosen(f, size)[0] == FreeList(f)[0]
    ensures size == 0 ==> |Chosen(f, size)| == 1
    ensures size > 0 && Suffices(f, size) ==> |Chosen(f, size)| == Need(size)
    ensures !Suffices(f, size) ==> Chosen(f, size) == FreeList(f)
  {
    FreeFromExact(f, 2);
    PrefixTakeable(f, FreeList(f), |Chosen(f, size)|);
    assert FreeList(f)[..|FreeList(f)|] == FreeList(f);
  }

  lemma {:induction false} PrefixTakeable(f: FatTable, free: seq<MapIndex>, n: nat)
    requires ListsEmpty(f, 2, free) && 0 < n <= |free|
    ensures Takeable(f, free[..n])
  {
    assert forall k | 0 <= k < n :: free[..n][k] == free[k];
  }

  lemma {:induction false} ChosenStart(f: FatTable, size: nat, cs: seq<MapIndex>, first: MapIndex)
    requires FreeList(f) != [] && cs == Chosen(f, size) && first == FreeList(f)[0]
    ensures cs != [] && first == cs[0] && forall k | 0 <= k < |cs| :: 2 <= cs[k]
  {
    ChosenTakeable(f, size);
  }

  lemma {:induction false} LinkedAt(f: FatTable, cs: seq<MapIndex>, n: nat)
    requires Ascending(cs) && n < |cs|
    ensures forall j | 0 <= j < n :: Linked(f, cs, n)[cs[j]] == cs[j + 1]
    ensures forall c | 0 <= c < 512 && c !in cs[..n] :: Linked(f, cs, n)[c] == f[c]
  {
    if n != 0 {
      LinkedAt(f, cs, n - 1);
      assert cs[..n] == cs[..n - 1] + [cs[n - 1]];
    }
  }

  lemma {:induction false} ClosedAt(f: FatTable, cs: seq<MapIndex>)
    requires Ascending(cs) && cs != []
    ensures forall j | 0 <= j < |cs| - 1 :: Closed(f, cs)[cs[j]] == cs[j + 1]
    ensures Closed(f, cs)[cs[|cs| - 1]] == END_OF_FILE
    ensures forall c | 0 <= c < 512 && c !in cs :: Closed(f, cs)[c] == f[c]
  {
    LinkedAt(f, cs, |cs| - 1);
    assert cs == cs[..|cs| - 1] + [cs[|cs| - 1]];
  }

  lemma {:induction false} FreeFromAgree(f: FatTable, g: FatTable, i: nat)
    requires forall c | i <= c < 512 :: f[c] == g[c]
    ensures FreeFrom(f, i) == FreeFrom(g, i)
    decreases |f| - i
  {
    if i < 512 {
      FreeFromAgree(f, g, i + 1);
    }
  }

  lemma {:induction false} FreeFromSkip(f: FatTable, i: nat, n: nat)
    requires n < |FreeFrom(f, i)|
    ensures FreeFrom(f, After(FreeFrom(f, i)[n])) == FreeFrom(f, i)[n + 1..]
    decreases |f| - i
  {
    var rest := FreeFrom(f, i + 1);
    if f[i] == EMPTY {
      assert FreeFrom(f, i) == [i] + rest;
      if n > 0 {
        FreeFromSkip(f, i + 1, n - 1);
      }
    } else {
      FreeFromSkip(f, i + 1, n);
    }
  }

  function After(c: MapIndex): nat {
    var i: nat := c;
    i + 1
  }

  /** After n links, searching on from the chain's tail finds the next entry of the original free list. */
  lemma {:induction false} NextFree(f: FatTable, cs: seq<MapIndex>, n: nat)
    requires FreeList(f) != [] && cs <= FreeList(f) && n < |cs|
    ensures FreeFrom(Linked(f, cs, n), After(cs[n])) == FreeList(f)[n + 1..]
  {
    FreeFromExact(f, 2);
    LinkedAt(f, cs, n);
    FreeFromAgree(f, Linked(f, cs, n), After(cs[n]));
    FreeFromSkip(f, 2, n);
  }

  /** In round n of the file loop, what the remaining bytes and the next free entry say about the chain. */
  lemma {:induction false} RoundDecides(f: FatTable, size: nat, n: nat)
    requires FreeList(f) != [] && size > 0
    requires n < |Chosen(f, size)| && 2048 * n < size
    ensures var cs := Chosen(f, size);
            var more := FreeList(f)[n + 1..];
            if size - 2048 * n <= 2048 then Suffices(f, size) && n == |cs| - 1
            else if more == [] then !Suffices(f, size) && n == |cs| - 1
            else n + 1 < |cs| && more[0] == cs[n + 1]
  {
    ChosenTakeable(f, size);
    if size - 2048 * n <= 2048 {
      assert Need(size) == n + 1;
    } else {
      assert Need(size) > n + 1;
    }
  }

  lemma {:induction false} LastDecides(f: FatTable, size: nat, cs: seq<MapIndex>, n: nat)
    requires FreeList(f) != [] && size > 0 && cs == Chosen(f, size)
    requires n < |cs| && 2048 * n < size
    ensures size - 2048 * n <= 2048 ==> Suffices(f, size) && n == |cs| - 1
  {
    RoundDecides(f, size, n);
  }

  // ---- replaying the log of a write step by step ----

  lemma {:induction false} ChunkBytes(buf: seq<Byte>, n: nat, i: nat)
    requires i < n && 2048 * n <= |buf|
    ensures Chunks(buf, n)[i] == buf[2048 * i..2048 * i + 2048]
  {
    ClusterBytes(buf[..2048 * n], i);
    assert buf[..2048 * n][2048 * i..2048 * i + 2048] == buf[2048 * i..2048 * i + 2048];
  }

  lemma {:induction false} AppendTwo(a: seq<DiskWrite>, b: seq<DiskWrite>, x: DiskWrite, y: DiskWrite)
    ensures a + (b + [x] + [y]) == a + b + [x] + [y]
    ensures a + (b + [x]) == a + b + [x]
  {
  }

  lemma {:induction false} RoundReplay(d: Disk, f: FatTable, cs: seq<MapIndex>, data: seq<Cluster>, n: nat)
    requires 0 < n < |cs| == |data|
    ensures var e := Replay(d, Rounds(f, cs, data, n - 1));
            Replay(d, Rounds(f, cs, data, n)) == e[cs[n - 1] := data[n - 1]][1 := EncodeFat(Linked(f, cs, n))]
  {
    var w, v := DiskWrite(cs[n - 1], data[n - 1]), FatWrite(Linked(f, cs, n));
    var done := Rounds(f, cs, data, n - 1);
    ReplayOne(d, done, w);
    ReplayOne(d, done + [w], v);
  }

  lemma {:induction false} ChainReplay(d: Disk, f: FatTable, cs: seq<MapIndex>, data: seq<Cluster>, n: nat)
    requires n + 1 == |cs| == |data|
    ensures var e := Replay(d, Rounds(f, cs, data, n))[cs[n] := data[n]];
            && Replay(d, ChainLog(f, cs, data, true)) == e[1 := EncodeFat(Closed(f, cs))]
            && Replay(d, ChainLog(f, cs, data, false)) == e
  {
    var done := Rounds(f, cs, data, n);
    var w, v := DiskWrite(cs[n], data[n]), FatWrite(Closed(f, cs));
    ReplayOne(d, done, w);
    ReplayOne(d, done + [w], v);
    assert done + [w] + [] == done + [w];
  }

  /** After n rounds of the file loop, l is the log that follows before, and e is the disk. */
  ghost predicate InRound(d: Disk, f: FatTable, cs: seq<MapIndex>, data: seq<Cluster>, n: nat,
                          before: seq<DiskWrite>, l: seq<DiskWrite>, e: Disk)
    requires n < |cs| == |data|
  {
    l == before + Rounds(f, cs, data, n) && e == Replay(d, Rounds(f, cs, data, n))
  }

  lemma {:induction false} NoRound(
      d: Disk, f: FatTable, cs: seq<MapIndex>, data: seq<Cluster>, n: nat, before: seq<DiskWrite>)
    requires n == 0 && |cs| == |data| && cs != []
    ensures InRound(d, f, cs, data, n, before, before, d) && Linked(f, cs, n) == f
  {
    assert before + [] == before;
  }

  /** A round that stores its cluster and links it leads to the next one. */
  lemma {:induction false} NextRound(d: Disk, f: FatTable, cs: seq<MapIndex>, data: seq<Cluster>, n: nat,
                                     before: seq<DiskWrite>, l: seq<DiskWrite>, e: Disk, l': seq<DiskWrite>, e': Disk)
    requires n + 1 < |cs| == |data| && InRound(d, f, cs, data, n, before, l, e)
    requires l' == l + [DiskWrite(cs[n], data[n])] + [FatWrite(Linked(f, cs, n + 1))]
    requires e' == e[cs[n] := data[n]][1 := EncodeFat(Linked(f, cs, n + 1))]
    ensures InRound(d, f, cs, data, n + 1, before, l', e')
  {
    AppendTwo(before, Rounds(f, cs, data, n), DiskWrite(cs[n], data[n]), FatWrite(Linked(f, cs, n + 1)));
    RoundReplay(d, f, cs, data, n + 1);
  }

  /** The last round stores its cluster and, if the content is complete, ends the chain. */
  lemma {:induction false} LastRound(d: Disk, f: FatTable, cs: seq<MapIndex>, data: seq<Cluster>, n: nat,
                                     before: seq<DiskWrite>, l: seq<DiskWrite>, e: Disk, complete: bool,
                                     l': seq<DiskWrite>, e': Disk)
    requires n + 1 == |cs| == |data| && InRound(d, f, cs, data, n, before, l, e)
    requires l' == l + [DiskWrite(cs[n], data[n])] + if complete then [FatWrite(Closed(f, cs))] else []
    requires e' == if complete then e[cs[n] := data[n]][1 := EncodeFat(Closed(f, cs))] else e[cs[n] := data[n]]
    ensures l' == before + ChainLog(f, cs, data, complete) && e' == Replay(d, ChainLog(f, cs, data, complete))
  {
    var done := Rounds(f, cs, data, n);
    var w := DiskWrite(cs[n], data[n]);
    AppendTwo(before, done, w, FatWrite(Closed(f, cs)));
    assert done + [w] + [] == done + [w];
    ChainReplay(d, f, cs, data, n);
  }

  /** What the folder branch adds to the log that follows before, and to the disk. */
  lemma {:induction false} FolderEnd(d: Disk, c: MapIndex, name: Name, parent: DWord, before: seq<DiskWrite>)
    ensures var l := FolderLog(d, c, name, parent);
            && before + l == before + [l[0]] + [l[1]]
            && Replay(d, l) == d[c := l[0].data][1 := l[1].data]
  {
    var l := FolderLog(d, c, name, parent);
    AppendTwo(before, [], l[0], l[1]);
    assert l == [] + [l[0]] + [l[1]] && before + [] == before;
    ReplayOne(d, [], l[0]);
    ReplayOne(d, [] + [l[0]], l[1]);
  }

  /** A request that is not accepted writes nothing. */
  lemma {:induction false} WriteRejected(d: Disk, req: Request, buf: seq<Byte>, before: seq<DiskWrite>)
    ensures !Accepted(d, req) ==> before + WriteLog(d, req, buf) == before && WriteDisk(d, req, buf) == d
    ensures ValidateCode(d, req) != 0 ==> !Accepted(d, req)
  {
    assert before + [] == before;
  }

  lemma {:induction false} FirstWrite(d: Disk, p: DiskWrite, l: seq<DiskWrite>, before: seq<DiskWrite>)
    ensures Replay(d, [p] + l) == Replay(d[p.cluster := p.data], l)
    ensures before + [p] + l == before + ([p] + l)
  {
    ReplayOne(d, [], p);
    assert [] + [p] == [p];
    ReplayAppend(d, [p], l);
  }

  /** The parent's table first, as the cluster c, then the content. */
  lemma {:induction false} WriteEnd(d: Disk, req: Request, buf: seq<Byte>, before: seq<DiskWrite>, c: Cluster, e: Disk)
    requires Accepted(d, req) && DecodeTable(c) == ParentTable(d, req) && e == d[req.parent := c]
    ensures var l := ContentLog(e, req, buf);
            && Fat(e) == Fat(d)
            && before + [DiskWrite(req.parent, c)] + l == before + WriteLog(d, req, buf)
            && Replay(e, l) == WriteDisk(d, req, buf)
  {
    TableBytes(c, ParentTable(d, req));
    FirstWrite(d, ParentWrite(d, req), ContentLog(e, req, buf), before);
  }

  /** What create_fat32 adds to the log that follows before, and to the disk. */
  lemma {:induction false} CreateEnd(d: Disk, f: FatTable, t: Cluster, c: Cluster, before: seq<DiskWrite>)
    ensures var l := CreateLog(f, t, c);
            && before + l == before + [l[0]] + [l[1]] + [l[2]]
            && Replay(d, l) == d[0 := l[0].data][1 := l[1].data][2 := l[2].data]
  {
    var l := CreateLog(f, t, c);
    AppendTwo(before, [l[0]], l[1], l[2]);
    assert l == [l[0]] + [l[1]] + [l[2]];
    ReplayOne(d, [], l[0]);
    ReplayOne(d, [l[0]], l[1]);
    ReplayOne(d, [l[0]] + [l[1]], l[2]);
  }
}
