/** What the FAT driver computes, as functions of the disk: the reference that the imperative
    driver (FatDriver) is proved against and that the theorems speak about. */
module FatSpec {
  import opened Bytes
  import opened Layout

  const EMPTY: DWord := 0
  const END_OF_FILE: DWord := 0x0FFF_FFFF
  const CLUSTER_0_VALUE: DWord := 0x0FFF_FFF0
  const CLUSTER_1_VALUE: DWord := 0x0FFF_FFFF
  const SUBDIRECTORY: Byte := 0x10
  const NOT_EMPTY: Byte := 0xAA
  const ROOT: nat := 2

  /** The 4 MiB image as 2048 clusters; the FAT maps the first 512 of them. */
  type Disk = d: seq<Cluster> | |d| == 2048 witness seq<Cluster>(2048, _ => ZERO_CLUSTER)
  type ClusterNo = c: nat | c < 2048
  type MapIndex = c: nat | c < 512

  /** One call of write_clusters. */
  datatype DiskWrite = DiskWrite(cluster: ClusterNo, data: Cluster)

  datatype Request = Request(name: Name, ext: Ext, parent: DWord, size: DWord)

  function Fat(d: Disk): FatTable {
    DecodeFat(d[1])
  }

  function TableOf(d: Disk, c: ClusterNo): Table {
    DecodeTable(d[c])
  }

  /** The disk after the writes of log, in order. */
  function Replay(d: Disk, log: seq<DiskWrite>): Disk {
    if log == [] then d
    else
      var last := log[|log| - 1];
      Replay(d, log[..|log| - 1])[last.cluster := last.data]
  }

  lemma {:induction false} ReplayAppend(d: Disk, a: seq<DiskWrite>, b: seq<DiskWrite>)
    ensures Replay(d, a + b) == Replay(Replay(d, a), b)
  {
    if b == [] {
      assert a + b == a;
    } else {
      ReplayAppend(d, a, b[..|b| - 1]);
      assert (a + b)[..|a + b| - 1] == a + b[..|b| - 1];
    }
  }

  lemma {:induction false} ReplayOne(d: Disk, log: seq<DiskWrite>, w: DiskWrite)
    ensures Replay(d, log + [w]) == Replay(d, log)[w.cluster := w.data]
  {
    assert (log + [w])[..|log|] == log;
  }

  lemma {:induction false} OthersKept(d: Disk, log: seq<DiskWrite>, c: ClusterNo)
    requires forall w | w in log :: w.cluster != c
    ensures Replay(d, log)[c] == d[c]
  {
    if log != [] {
      OthersKept(d, log[..|log| - 1], c);
    }
  }

  // ---- scanning ----

  /** The first index from i on whose entry satisfies p, or the table's length. */
  function First(t: seq<Entry>, p: Entry -> bool, i: nat): (r: nat)
    requires i <= |t|
    ensures i <= r <= |t|
    ensures forall j | i <= j < r :: !p(t[j])
    ensures r < |t| ==> p(t[r])
    decreases |t| - i
  {
    if i == |t| || p(t[i]) then i else First(t, p, i + 1)
  }

  predicate IsDirectory(t: Table) {
    t[0].userAttribute == NOT_EMPTY && t[0].filesize == 0
  }

  predicate Live(e: Entry) {
    e.userAttribute == NOT_EMPTY
  }

  predicate Named(e: Entry, name: Name, ext: Ext) {
    e.name == name && e.ext == ext
  }

  /** The comparison of isExist: folders by name only, files by name and extension. */
  predicate Clashes(e: Entry, req: Request) {
    e.name == req.name && (req.size == 0 || e.ext == req.ext)
  }

  function FirstNamed(t: Table, name: Name, ext: Ext): (r: nat)
    ensures r <= 64
    ensures forall j | 0 <= j < r :: !Named(t[j], name, ext)
    ensures r < 64 ==> Named(t[r], name, ext)
  {
    First(t, e => Named(e, name, ext), 0)
  }

  function FirstClash(t: Table, req: Request): (r: nat)
    ensures r <= 64
    ensures forall j | 0 <= j < r :: !Clashes(t[j], req)
    ensures r < 64 ==> Clashes(t[r], req)
  {
    First(t, e => Clashes(e, req), 0)
  }

  /** The slot that findEmptyEntry returns; 0 when slots 1 to 63 are all taken. */
  function FreeSlot(t: Table): (r: nat)
    ensures r < 64
    ensures r != 0 ==> !Live(t[r]) && forall j | 1 <= j < r :: Live(t[j])
    ensures r == 0 ==> forall j | 1 <= j < 64 :: Live(t[j])
  {
    var r := First(t, e => !Live(e), 1);
    if r == 64 then 0 else r
  }

  /** The empty FAT entries from i on, in ascending order. */
  function FreeFrom(f: FatTable, i: nat): seq<MapIndex>
    decreases |f| - i
  {
    if i >= 512 then []
    else if f[i] == EMPTY then [i] + FreeFrom(f, i + 1)
    else FreeFrom(f, i + 1)
  }

  function FreeList(f: FatTable): seq<MapIndex> {
    FreeFrom(f, 2)
  }

  // ---- writing ----

  /** How many clusters size bytes fill. */
  function Need(size: nat): nat {
    (size + 2047) / 2048
  }

  /** validateWrite on the parent's table: 2 for a bad parent, 1 for a name found in a slot other than 0. */
  function ValidateTable(t: Table, req: Request): int {
    if req.parent < 2 || req.parent > 512 || !IsDirectory(t) then 2
    else if 0 < FirstClash(t, req) < 64 then 1
    else 0
  }

  function ValidateCode(d: Disk, req: Request): int {
    if req.parent > 512 then 2 else ValidateTable(TableOf(d, req.parent), req)
  }

  /** The request gets past validation and there is a free cluster and a free slot. */
  predicate Accepted(d: Disk, req: Request) {
    ValidateCode(d, req) == 0 && FreeList(Fat(d)) != [] && FreeSlot(TableOf(d, req.parent)) != 0
  }

  /** The clusters the request stores to: the smallest free ones, as many as needed or as there are. */
  function Chosen(f: FatTable, size: nat): (cs: seq<MapIndex>) {
    var free := FreeList(f);
    var n := if size == 0 then 1 else Need(size);
    if n <= |free| then free[..n] else free
  }

  /** The chosen clusters hold the whole content. */
  predicate Suffices(f: FatTable, size: nat) {
    size == 0 || Need(size) <= |FreeList(f)|
  }

  function WriteCode(d: Disk, req: Request): int {
    var v := ValidateCode(d, req);
    if v != 0 then v
    else if !Accepted(d, req) || !Suffices(Fat(d), req.size) then -1
    else 0
  }

  /** writeEntry: what is not assigned keeps its old value, the extension of a folder included. */
  function NewEntry(e: Entry, req: Request, c: DWord): Entry {
    e.(name := req.name, userAttribute := NOT_EMPTY,
       clusterLow := c % 0x1_0000, clusterHigh := c / 0x1_0000, filesize := req.size,
       attribute := if req.size == 0 then SUBDIRECTORY else 0,
       ext := if req.size == 0 then e.ext else req.ext)
  }

  function EntryCluster(e: Entry): DWord {
    e.clusterHigh * 0x1_0000 + e.clusterLow
  }

  /** init_directory_table: the parent's number goes in with its halves the other way round. */
  function Header(e: Entry, name: Name, parent: DWord): Entry {
    e.(name := name, attribute := SUBDIRECTORY, userAttribute := NOT_EMPTY,
       clusterLow := parent / 0x1_0000, clusterHigh := parent % 0x1_0000, filesize := 0)
  }

  function ParentLink(e: Entry): DWord {
    e.clusterLow * 0x1_0000 + e.clusterHigh
  }

  function HeadedTable(c: Cluster, name: Name, parent: DWord): Cluster {
    var t := DecodeTable(c);
    EncodeTable(t[0 := Header(t[0], name, parent)])
  }

  /** The first n clusters of the request's buffer. The driver's precondition keeps them inside the buffer. */
  function Chunks(buf: seq<Byte>, n: nat): (s: seq<Cluster>)
    ensures |s| == n
  {
    if 2048 * n <= |buf| then Clusters(buf[..2048 * n]) else seq<Cluster>(n, _ => ZERO_CLUSTER)
  }

  /** The FAT with the first n links of the chain cs in it. */
  function Linked(f: FatTable, cs: seq<MapIndex>, n: nat): FatTable
    requires n < |cs|
  {
    if n == 0 then f else Linked(f, cs, n - 1)[cs[n - 1] := cs[n]]
  }

  /** The FAT with the whole chain cs in it. */
  function Closed(f: FatTable, cs: seq<MapIndex>): FatTable
    requires cs != []
  {
    Linked(f, cs, |cs| - 1)[cs[|cs| - 1] := END_OF_FILE]
  }

  function FatWrite(f: FatTable): DiskWrite {
    DiskWrite(1, EncodeFat(f))
  }

  /** The disk writes of the first n rounds of the file loop, each storing one cluster of the content
      and then linking it to the next one. */
  function Rounds(f: FatTable, cs: seq<MapIndex>, data: seq<Cluster>, n: nat): seq<DiskWrite>
    requires n < |cs| == |data|
  {
    if n == 0 then []
    else Rounds(f, cs, data, n - 1)
         + [DiskWrite(cs[n - 1], data[n - 1])] + [FatWrite(Linked(f, cs, n))]
  }

  /** The disk writes of the whole file loop. Without enough clusters the last one is stored but never linked. */
  function ChainLog(f: FatTable, cs: seq<MapIndex>, data: seq<Cluster>, complete: bool): seq<DiskWrite>
    requires cs != [] && |data| == |cs|
  {
    var last := |cs| - 1;
    Rounds(f, cs, data, last) + [DiskWrite(cs[last], data[last])]
    + if complete then [FatWrite(Closed(f, cs))] else []
  }

  /** The disk writes that fill in the new folder at cluster c; its table starts as what c holds now. */
  function FolderLog(d: Disk, c: MapIndex, name: Name, parent: DWord): seq<DiskWrite> {
    [DiskWrite(c, HeadedTable(d[c], name, parent))] + [FatWrite(Fat(d)[c := END_OF_FILE])]
  }

  function ParentTable(d: Disk, req: Request): Table
    requires Accepted(d, req)
  {
    var t := TableOf(d, req.parent);
    var slot := FreeSlot(t);
    t[slot := NewEntry(t[slot], req, FreeList(Fat(d))[0])]
  }

  function ParentWrite(d: Disk, req: Request): DiskWrite
    requires Accepted(d, req)
  {
    DiskWrite(req.parent, EncodeTable(ParentTable(d, req)))
  }

  /** What an accepted request writes after its entry is in the parent's table, on the disk d it finds then. */
  function ContentLog(d: Disk, req: Request, buf: seq<Byte>): seq<DiskWrite>
    requires FreeList(Fat(d)) != []
  {
    if req.size == 0 then FolderLog(d, FreeList(Fat(d))[0], req.name, req.parent)
    else
      var cs := Chosen(Fat(d), req.size);
      ChainLog(Fat(d), cs, Chunks(buf, |cs|), Suffices(Fat(d), req.size))
  }

  /** Every disk write that write(request) makes, in order. */
  function WriteLog(d: Disk, req: Request, buf: seq<Byte>): seq<DiskWrite> {
    if !Accepted(d, req) then []
    else
      var p := ParentWrite(d, req);
      [p] + ContentLog(d[p.cluster := p.data], req, buf)
  }

  function WriteDisk(d: Disk, req: Request, buf: seq<Byte>): Disk {
    Replay(d, WriteLog(d, req, buf))
  }

  // ---- reading ----

  function ReadCode(d: Disk, req: Request): int {
    if req.parent < 2 || req.parent > 512 || !IsDirectory(TableOf(d, req.parent)) then -1
    else
      var t := TableOf(d, req.parent);
      var i := FirstNamed(t, req.name, req.ext);
      if i == 64 then 3
      else if req.size < t[i].filesize then 2
      else 0
  }

  /** The cluster read takes its data from: the entry's low half only. */
  function ReadCluster(d: Disk, req: Request): nat
    requires ReadCode(d, req) == 0
  {
    var t := TableOf(d, req.parent);
    t[FirstNamed(t, req.name, req.ext)].clusterLow
  }

  // ---- mounting ----

  /** One 16-byte row of the boot sector text: "Course", "Designed by", "Lab Sister ITB", "Made with <3"
      and "-----------2023" with a newline. */
  function SignatureRow(i: nat): (r: seq<Byte>)
    requires i < 5
    ensures |r| == 16 && (i == 0 ==> r[0] == 67)
  {
    if i == 0 then [67, 111, 117, 114, 115, 101, 32, 32, 32, 32, 32, 32, 32, 32, 32, 32]
    else if i == 1 then [68, 101, 115, 105, 103, 110, 101, 100, 32, 98, 121, 32, 32, 32, 32, 32]
    else if i == 2 then [76, 97, 98, 32, 83, 105, 115, 116, 101, 114, 32, 73, 84, 66, 32, 32]
    else if i == 3 then [77, 97, 100, 101, 32, 119, 105, 116, 104, 32, 60, 51, 32, 32, 32, 32]
    else [45, 45, 45, 45, 45, 45, 45, 45, 45, 45, 45, 50, 48, 50, 51, 10]
  }

  /** The boot sector: five rows of text, then zeros, then "Ok". */
  function Signature(): (s: seq<Byte>)
    ensures |s| == 512 && s[0] == 67
  {
    SignatureRow(0) + SignatureRow(1) + SignatureRow(2) + SignatureRow(3) + SignatureRow(4) + Zeros(430) + [79, 107]
  }

  /** "root", padded with zeros. */
  function RootName(): Name {
    [114, 111, 111, 116, 0, 0, 0, 0]
  }

  predicate Signed(d: Disk) {
    d[0][..512] == Signature()
  }

  /** The disk writes of create_fat32, from what the three driver buffers held before. */
  function CreateLog(cached: FatTable, dirBuf: Cluster, clusterBuf: Cluster): seq<DiskWrite> {
    [DiskWrite(0, Patch(clusterBuf, 0, Signature())),
     FatWrite(cached[0 := CLUSTER_0_VALUE][1 := CLUSTER_1_VALUE][2 := END_OF_FILE]),
     DiskWrite(2, HeadedTable(dirBuf, RootName(), ROOT))]
  }
}
