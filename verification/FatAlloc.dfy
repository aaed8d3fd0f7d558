/** The first-fit allocator, counted in sets of clusters. */
module FatAlloc {
  import opened Bytes
  import opened Layout
  import opened FatSpec
  import opened FatChains
  import opened FatEffect

  /** The clusters that the FAT marks empty; 0 and 1 are reserved. */
  function FreeSet(f: FatTable): set<nat> {
    set c: nat | 2 <= c < 512 && f[c] == EMPTY
  }

  ghost function Members(cs: seq<MapIndex>): set<nat> {
    set k | 0 <= k < |cs| :: cs[k]
  }

  lemma {:induction false} MembersCount(cs: seq<MapIndex>)
    requires Ascending(cs)
    ensures |Members(cs)| == |cs|
  {
    if cs != [] {
      var n := |cs| - 1;
      assert forall k | 0 <= k < n :: cs[..n][k] == cs[k];
      MembersCount(cs[..n]);
      assert Members(cs) == Members(cs[..n]) + {cs[n]};
      assert cs[n] !in Members(cs[..n]);
    }
  }

  lemma {:induction false} FreeListMembers(f: FatTable)
    ensures Members(FreeList(f)) == FreeSet(f) && |FreeSet(f)| == |FreeList(f)|
  {
    var s := FreeFrom(f, 2);
    FreeFromExact(f, 2);
    MembersCount(s);
    forall c | c in FreeSet(f)
      ensures c in Members(s)
    {
      var i: MapIndex := c;
      assert i in s;
    }
  }

  /** What a chain of free clusters takes away from the free set. */
  lemma {:induction false} ClosedTakes(f: FatTable, cs: seq<MapIndex>)
    requires Takeable(f, cs)
    ensures Members(cs) <= FreeSet(f) && FreeSet(Closed(f, cs)) == FreeSet(f) - Members(cs)
    ensures |FreeSet(Closed(f, cs))| == |FreeSet(f)| - |cs|
  {
    var g := Closed(f, cs);
    ClosedAt(f, cs);
    MembersCount(cs);
    forall c | c in FreeSet(f)
      ensures c in FreeSet(g) <==> c !in Members(cs)
    {
      var i: MapIndex := c;
      if i in cs {
        var j :| 0 <= j < |cs| && cs[j] == i;
        assert j < |cs| - 1 ==> g[cs[j]] == cs[j + 1];
      }
    }
  }

  /** The chain of a file that ran out of clusters leaves only its own last cluster free. */
  lemma {:induction false} LinkedLeavesOne(f: FatTable, cs: seq<MapIndex>)
    requires ListsEmpty(f, 2, cs) && cs != []
    ensures FreeSet(Linked(f, cs, |cs| - 1)) == {cs[|cs| - 1]}
  {
    var n := |cs| - 1;
    var g := Linked(f, cs, n);
    LinkedAt(f, cs, n);
    forall j | 0 <= j < n
      ensures g[cs[..n][j]] != EMPTY
    {
      assert g[cs[j]] == cs[j + 1] && 2 <= cs[j + 1];
    }
    forall c | c in FreeSet(g)
      ensures c == cs[n]
    {
      var i: MapIndex := c;
      assert i !in cs[..n] && i in cs;
      assert cs == cs[..n] + [cs[n]];
    }
  }

  /** The allocator is exact. A file that passes validation is written if and only if its parent has a
      free slot and the FAT has enough empty entries, wherever they are; it then takes that many of
      them, the smallest ones, and nothing else. */
  lemma {:induction false} AllocatorExact(d: Disk, req: Request, buf: seq<Byte>)
    requires ValidateCode(d, req) == 0 && req.size > 0
    ensures WriteCode(d, req) == 0 <==>
      FreeSlot(TableOf(d, req.parent)) != 0 && Need(req.size) <= |FreeSet(Fat(d))|
    ensures WriteCode(d, req) == 0 ==>
      var free, left := FreeSet(Fat(d)), FreeSet(Fat(WriteDisk(d, req, buf)));
      && left <= free
      && |free - left| == Need(req.size)
      && free - left == Members(Chosen(Fat(d), req.size))
      && forall c, c' | c in free - left && c' in left :: c < c'
  {
    var f := Fat(d);
    FreeListMembers(f);
    if WriteCode(d, req) == 0 {
      FileWritten(d, req, buf);
      TakesSmallest(f, req.size);
    }
  }

  lemma {:induction false} TakesSmallest(f: FatTable, size: nat)
    requires size > 0 && FreeList(f) != [] && Suffices(f, size)
    ensures var cs := Chosen(f, size);
            var free, left := FreeSet(f), FreeSet(Closed(f, cs));
            && left <= free && free - left == Members(cs) && |free - left| == Need(size)
            && forall c, c' | c in free - left && c' in left :: c < c'
  {
    var cs := Chosen(f, size);
    ChosenTakeable(f, size);
    FreeListMembers(f);
    ClosedTakes(f, cs);
    MembersCount(cs);
    var free, left := FreeSet(f), FreeSet(Closed(f, cs));
    assert free - left == Members(cs);
    FreeFromExact(f, 2);
    forall c, c' | c in Members(cs) && c' in left
      ensures c < c'
    {
      assert c' in Members(FreeList(f));
      PrefixSmaller(FreeList(f), |cs|, c, c');
    }
  }

  lemma {:induction false} PrefixSmaller(all: seq<MapIndex>, n: nat, c: nat, c': nat)
    requires Ascending(all) && n <= |all|
    requires c in Members(all[..n]) && c' in Members(all) - Members(all[..n])
    ensures c < c'
  {
    forall j | 0 <= j < n
      ensures all[j] in Members(all[..n])
    {
      assert all[..n][j] == all[j];
    }
    var k :| 0 <= k < n && all[..n][k] == c;
    var l :| 0 <= l < |all| && all[l] == c';
    assert all[k] == all[..n][k];
  }

  /** How many clusters a request that returns code takes for good. */
  function Taken(req: Request, code: int): nat {
    if code != 0 then 0 else if req.size == 0 then 1 else Need(req.size)
  }

  /** The request got past validation, found a cluster and a slot, and then ran out of clusters. */
  predicate RunsOut(d: Disk, req: Request) {
    Accepted(d, req) && !Suffices(Fat(d), req.size)
  }

  lemma {:induction false} SameFatBytes(a: Cluster, b: Cluster)
    requires DecodeFat(a) == DecodeFat(b)
    ensures a == b
  {
    FatBytesRoundTrip(a);
    FatBytesRoundTrip(b);
  }

  /** The one failure midway that does not touch the FAT: there was a single free cluster. If it is the
      parent's own, the new entry is overwritten by the content. */
  lemma {:induction false} FailedInParent(d: Disk, req: Request, buf: seq<Byte>)
    requires RunsOut(d, req) && Chosen(Fat(d), req.size) == [req.parent] && 2048 <= |buf|
    ensures WriteDisk(d, req, buf) == d[req.parent := buf[..2048]]
  {
    var e := WriteDisk(d, req, buf);
    FirstPiece(buf, buf[..2048]);
    ClusterWritten(d, req, buf, [req.parent], 0, buf[..2048]);
    SameFat(d, req, buf, e);
    forall c: ClusterNo | c != 1 && c != req.parent
      ensures e[c] == d[c]
    {
      UnchosenKept(d, req, buf, c);
    }
    OneChanged(d, e, req.parent, buf[..2048]);
  }

  lemma {:induction false} FirstPiece(buf: seq<Byte>, piece: Cluster)
    requires 2048 <= |buf| && piece == buf[..2048]
    ensures PieceOf(buf, 0, piece)
  {
  }

  lemma {:induction false} OneChanged(d: Disk, e: Disk, c: ClusterNo, data: Cluster)
    requires e[c] == data && forall i: ClusterNo | i != c :: e[i] == d[i]
    ensures e == d[c := data]
  {
  }

  lemma {:induction false} SameFat(d: Disk, req: Request, buf: seq<Byte>, e: Disk)
    requires RunsOut(d, req) && |Chosen(Fat(d), req.size)| == 1 && e == WriteDisk(d, req, buf)
    ensures e[1] == d[1]
  {
    FatWritten(d, req, buf);
    assert Linked(Fat(d), Chosen(Fat(d), req.size), 0) == Fat(d);
    SameFatBytes(e[1], d[1]);
  }

  lemma {:induction false} FailureSeen(d: Disk, req: Request, buf: seq<Byte>)
    requires RunsOut(d, req) && Chosen(Fat(d), req.size) != [req.parent]
    ensures WriteDisk(d, req, buf) != d
  {
    var e, cs := WriteDisk(d, req, buf), Chosen(Fat(d), req.size);
    ChosenTakeable(Fat(d), req.size);
    FatWritten(d, req, buf);
    if |cs| > 1 {
      LinkedAt(Fat(d), cs, |cs| - 1);
      assert Fat(e)[cs[0]] == cs[1] && Fat(d)[cs[0]] == EMPTY;
    } else {
      var t := TableOf(d, req.parent);
      ParentWritten(d, req, buf);
      assert Live(ParentTable(d, req)[FreeSlot(t)]) && !Live(t[FreeSlot(t)]);
    }
  }

  /** A write that fails leaves the disk as it was if and only if it did not run out of clusters midway;
      one that did has already entered the file in its parent's table. The one exception: the only free
      cluster is the parent's own, and the content is what it held anyway. */
  lemma {:induction false} FailureAtomic(d: Disk, req: Request, buf: seq<Byte>)
    requires WriteCode(d, req) != 0
    requires RunsOut(d, req) ==> 2048 * |Chosen(Fat(d), req.size)| <= |buf|
    ensures WriteDisk(d, req, buf) == d <==>
      !RunsOut(d, req) || (Chosen(Fat(d), req.size) == [req.parent] && buf[..2048] == d[req.parent])
  {
    if !RunsOut(d, req) {
      WriteRejected(d, req, buf, []);
    } else if Chosen(Fat(d), req.size) == [req.parent] {
      FailedInParent(d, req, buf);
      StoreSeen(d, req.parent, buf[..2048]);
    } else {
      FailureSeen(d, req, buf);
    }
  }

  lemma {:induction false} StoreSeen(d: Disk, c: ClusterNo, data: Cluster)
    ensures d[c := data] == d <==> data == d[c]
  {
    assert d[c := data][c] == data;
  }

  /** The number of empty FAT entries after any request: conserved up to what was taken. A file that
      runs out midway leaves exactly one. */
  lemma {:induction false} FreeCountAfter(d: Disk, req: Request, buf: seq<Byte>)
    ensures var before, after := |FreeSet(Fat(d))|, |FreeSet(Fat(WriteDisk(d, req, buf)))|;
            if RunsOut(d, req) then after == 1 else after + Taken(req, WriteCode(d, req)) == before
  {
    if Accepted(d, req) {
      FatWritten(d, req, buf);
      FinalFreeCount(Fat(d), req.size);
    }
  }

  lemma {:induction false} FinalFreeCount(f: FatTable, size: nat)
    requires FreeList(f) != []
    ensures |FreeSet(FinalFat(f, size))|
         == if Suffices(f, size) then |FreeSet(f)| - (if size == 0 then 1 else Need(size)) else 1
  {
    if Suffices(f, size) {
      ChosenTakeable(f, size);
      ClosedTakes(f, Chosen(f, size));
    } else {
      FinalLeavesOne(f, size, FreeList(f), FinalFat(f, size));
    }
  }

  lemma {:induction false} FinalLeavesOne(f: FatTable, size: nat, cs: seq<MapIndex>, g: FatTable)
    requires FreeList(f) != [] && !Suffices(f, size) && cs == FreeList(f) && g == FinalFat(f, size)
    ensures Chosen(f, size) == cs && FreeSet(g) == {cs[|cs| - 1]}
  {
    FreeFromExact(f, 2);
    LinkedLeavesOne(f, cs);
  }
}
