/** Which clusters the driver's directory check takes for directories: those of the folders, and those of
    files whose content looks like a directory header. */
module FatHonest {
  import opened Bytes
  import opened Layout
  import opened FatSpec
  import opened FatChains
  import opened FatEffect
  import opened FatRuns

  /** The two fields that isDirectory looks at, in the cluster of bytes that starts at byte at. */
  predicate LooksLikeDirectory(b: seq<Byte>, at: nat)
    requires at + 32 <= |b|
  {
    b[at + 12] == NOT_EMPTY && b[at + 28] == 0 && b[at + 29] == 0 && b[at + 30] == 0 && b[at + 31] == 0
  }

  /** A stored cluster of a file, even of one that runs out of clusters midway, passes for a directory if and
      only if the content says so at that place. */
  lemma {:induction false} FileImitates(d: Disk, req: Request, buf: seq<Byte>, k: nat)
    requires req.size > 0 && Accepted(d, req) && k < |Chosen(Fat(d), req.size)|
    requires 2048 * |Chosen(Fat(d), req.size)| <= |buf|
    ensures var c := Chosen(Fat(d), req.size)[k];
            IsDirectory(TableOf(WriteDisk(d, req, buf), c)) <==> LooksLikeDirectory(buf, 2048 * k)
  {
    var cs := Chosen(Fat(d), req.size);
    ClusterWritten(d, req, buf, cs, k, buf[2048 * k..2048 * k + 2048]);
    PieceImitates(WriteDisk(d, req, buf)[cs[k]], buf, k);
  }

  lemma {:induction false} PieceImitates(c: Cluster, buf: seq<Byte>, k: nat)
    requires PieceOf(buf, k, c)
    ensures IsDirectory(DecodeTable(c)) <==> LooksLikeDirectory(buf, 2048 * k)
  {
    HeaderBytes(c);
  }

  lemma {:induction false} HeaderBytes(c: Cluster)
    ensures IsDirectory(DecodeTable(c)) <==> LooksLikeDirectory(c, 0)
  {
    TableEntry(c, 0);
  }

  /** A file whose buffer is as long as the clusters it needs, none of which looks like a directory; or any
      other request. */
  predicate Honest(op: Op) {
    op.Write? && op.req.size > 0 ==>
      && 2048 * Need(op.req.size) <= |op.buf|
      && forall k | 0 <= k < Need(op.req.size) :: !LooksLikeDirectory(op.buf, 2048 * k)
  }

  /** No cluster outside dirs passes the directory check. */
  ghost predicate OnlyDirectories(d: Disk, dirs: set<nat>) {
    forall c: nat | 2 <= c <= 512 && IsDirectory(TableOf(d, c)) :: c in dirs
  }

  /** The directories after an operation: a folder that is created becomes one. */
  function DirsStep(d: Disk, dirs: set<nat>, op: Op): set<nat> {
    if op.Write? && op.req.size == 0 && Accepted(d, op.req) then dirs + {FreeList(Fat(d))[0]} else dirs
  }

  lemma {:induction false} StepOnlyDirectories(d: Disk, dirs: set<nat>, op: Op)
    requires OnlyDirectories(d, dirs) && Honest(op)
    ensures OnlyDirectories(Step(d, op), DirsStep(d, dirs, op))
  {
    if op.Write? && Accepted(d, op.req) {
      forall c: nat | 2 <= c <= 512 && IsDirectory(TableOf(Step(d, op), c))
        ensures c in DirsStep(d, dirs, op)
      {
        HonestWrite(d, dirs, op.req, op.buf, c);
      }
    }
  }

  lemma {:induction false} HonestWrite(d: Disk, dirs: set<nat>, req: Request, buf: seq<Byte>, c: nat)
    requires OnlyDirectories(d, dirs) && Honest(Write(req, buf)) && Accepted(d, req)
    requires 2 <= c <= 512 && IsDirectory(TableOf(WriteDisk(d, req, buf), c))
    ensures c in dirs || (req.size == 0 && c == FreeList(Fat(d))[0])
  {
    var cs := Chosen(Fat(d), req.size);
    ChosenTakeable(Fat(d), req.size);
    if c !in dirs {
      if c !in cs {
        UnchosenKept(d, req, buf, c);
      } else if req.size > 0 {
        ChosenFew(Fat(d), req.size);
        var k :| 0 <= k < |cs| && cs[k] == c;
        FileImitates(d, req, buf, k);
      }
    }
  }

  lemma {:induction false} ChosenFew(f: FatTable, size: nat)
    requires size > 0
    ensures |Chosen(f, size)| <= Need(size)
  {
  }
}
