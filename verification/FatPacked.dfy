/** Runs from a freshly created file system never leave holes: the allocated clusters are an interval
    and every chain is contiguous. Failed writes are included. */
module FatPacked {
  import opened Layout
  import opened FatSpec
  import opened FatChains
  import opened FatFiles
  import opened FatEffect
  import opened FatRuns

  /** The allocated clusters are an interval from 2 on, and every link goes to the next cluster. */
  ghost predicate Packed(f: FatTable) {
    && f[2] != EMPTY
    && (forall c: nat, e: nat | 2 <= c < e < 512 && f[e] != EMPTY :: f[c] != EMPTY)
    && (forall c: nat | 2 <= c < 512 && f[c] != EMPTY :: f[c] == END_OF_FILE || f[c] == c + 1 < 512)
  }

  lemma {:induction false} PackedAscends(f: FatTable)
    requires Packed(f)
    ensures LinksAscend(f)
  {
  }

  lemma {:induction false} ChainContiguous(f: FatTable, cs: seq<MapIndex>, k: nat)
    requires Packed(f) && IsChain(f, cs) && k < |cs|
    ensures cs[k] == cs[0] + k
  {
    if k > 0 {
      ChainContiguous(f, cs, k - 1);
      assert f[cs[k - 1]] == cs[k];
    }
  }

  lemma {:induction false} FreeContiguous(f: FatTable, s: seq<MapIndex>, k: nat)
    requires Packed(f) && ListsEmpty(f, 2, s) && k < |s|
    ensures s[k] == s[0] + k
  {
    if k > 0 {
      FreeContiguous(f, s, k - 1);
      assert s[k - 1] < s[k];
      var c: MapIndex := s[0] + k;
      assert f[s[0]] == EMPTY && f[c] == EMPTY;
      var j :| 0 <= j < |s| && s[j] == c;
    }
  }

  lemma {:induction false} FinalPacked(f: FatTable, size: nat)
    requires Packed(f) && FreeList(f) != []
    ensures Packed(FinalFat(f, size))
  {
    var cs, s := Chosen(f, size), FreeFrom(f, 2);
    var g := FinalFat(f, size);
    FreeFromExact(f, 2);
    ChosenTakeable(f, size);
    LinkedAt(f, cs, |cs| - 1);
    ClosedAt(f, cs);
    forall k | 0 <= k < |cs|
      ensures cs[k] == cs[0] + k
    {
      FreeContiguous(f, s, k);
    }
    ConsecutivePacked(f, cs, g);
  }

  /** Filling in the first consecutive free clusters, the last one possibly left out, keeps a FAT packed. */
  lemma {:induction false} ConsecutivePacked(f: FatTable, cs: seq<MapIndex>, g: FatTable)
    requires Packed(f) && Takeable(f, cs)
    requires forall k | 0 <= k < |cs| :: cs[k] == cs[0] + k
    requires forall c: MapIndex | 2 <= c && f[c] == EMPTY :: cs[0] <= c
    requires forall k | 0 <= k < |cs| - 1 :: g[cs[k]] == cs[k + 1]
    requires var last := cs[|cs| - 1]; g[last] == END_OF_FILE || g[last] == EMPTY
    requires forall c: MapIndex | c !in cs :: g[c] == f[c]
    ensures Packed(g)
  {
    var last := cs[|cs| - 1];
    forall c: MapIndex | cs[0] <= c <= last
      ensures c in cs && (c < last ==> g[c] == c + 1)
    {
      var k := c - cs[0];
      assert cs[k] == c;
      assert c < last ==> g[cs[k]] == cs[k + 1];
    }
    forall c: MapIndex | c > last
      ensures g[c] == EMPTY
    {
      assert c !in cs;
    }
    forall c: MapIndex | c < cs[0]
      ensures g[c] == f[c] && (2 <= c ==> f[c] != EMPTY)
    {
      assert c !in cs;
    }
  }

  lemma {:induction false} RunStaysPacked(d: Disk, ops: seq<Op>)
    requires Packed(Fat(d))
    ensures Packed(Fat(Run(d, ops)))
    decreases |ops|
  {
    if ops != [] {
      if ops[0].Write? && Accepted(d, ops[0].req) {
        FatWritten(d, ops[0].req, ops[0].buf);
        FinalPacked(Fat(d), ops[0].req.size);
      }
      RunStaysPacked(Step(d, ops[0]), ops[1..]);
    }
  }
}
