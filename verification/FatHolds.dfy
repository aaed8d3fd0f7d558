/** When a disk holds a store. */
module FatHolds {
  import opened Layout
  import opened FatSpec
  import opened FatAlloc
  import opened FatRuns
  import opened FatTree
  import opened FileStore
  import opened FatMap

  /** Slots 1 to entries are live, the others are not, and the header is that of the directory. */
  ghost predicate Holds(t: Table, i: Dir) {
    && t[0] == Header(ZERO_ENTRY, i.name, i.parent)
    && i.entries <= 63 && forall j | 1 <= j < 64 :: Live(t[j]) <==> j <= i.entries
  }

  ghost predicate HoldsNodes(d: Disk, o: Owner, nodes: map<Key, Node>) {
    forall k: Key :: Lookup(d, o, k) == if k in nodes then Some(nodes[k]) else None
  }

  ghost predicate HoldsDirs(d: Disk, o: Owner, dirs: map<nat, Dir>) {
    && (forall c: nat :: c in dirs <==> IsDir(d, o, c))
    && (forall c: nat | c in dirs :: c < 512 && Holds(TableOf(d, c), dirs[c]))
  }

  /** The disk, whose clusters have these owners, holds the store. */
  ghost predicate Refines(d: Disk, o: Owner, s: Store) {
    && Tree(d, o) && Signed(d)
    && HoldsNodes(d, o, s.nodes) && HoldsDirs(d, o, s.dirs)
    && s.free == |FreeSet(Fat(d))|
  }

  /** What the store speaks about: requests that name one of its directories, or a parent that the driver
      rejects as one. The buffer of a file that is written is as long as the clusters it fills. */
  ghost predicate Fair(d: Disk, s: Store, op: Op) {
    match op
    case Initialize => true
    case Read(r) => r.parent in s.dirs || ReadCode(d, r) == -1
    case Write(req, buf) =>
      && (req.parent in s.dirs || ValidateCode(d, req) == 2)
      && (WriteCode(d, req) == 0 ==> 2048 * Need(req.size) <= |buf|)
  }

  ghost predicate FairRun(d: Disk, s: Store, ops: seq<Op>)
    decreases |ops|
  {
    ops == [] || (Fair(d, s, ops[0]) && FairRun(Step(d, ops[0]), StoreStep(s, ops[0]), ops[1..]))
  }

  /** The code, and how the 512 bytes that the caller gets start. */
  ghost predicate Answered(d: Disk, r: Request, a: Answer) {
    && ReadCode(d, r) == a.code
    && (if a.code == 0 then ReadCluster(d, r) < 2048 && a.start <= d[ReadCluster(d, r)][..512] else a.start == [])
  }
}
