/** A file store without a disk: a map from names to contents, the directories with the number of their
    entries, and the number of free clusters. It says by itself what every request returns. */
module FileStore {
  import opened Bytes
  import opened Layout
  import opened FatSpec
  import opened FatRuns
  import opened FatTables

  datatype Key = Key(dir: nat, name: Name, ext: Ext)
  datatype Node = File(bytes: seq<Byte>) | Folder(cluster: nat)

  /** A directory's own name, the directory it was created in, and how many of its 63 slots are taken. */
  datatype Dir = Dir(name: Name, parent: DWord, entries: nat)

  type FreeCount = n: nat | n <= 509

  datatype Store = Store(nodes: map<Key, Node>, dirs: map<nat, Dir>, free: FreeCount)

  function NewStore(): Store {
    Store(map[], map[ROOT := Dir(RootName(), ROOT, 0)], 509)
  }

  /** The key that a successful write adds. A folder's entry keeps the blank extension of its slot. */
  function NewKey(req: Request): Key {
    Key(req.parent, req.name, if req.size == 0 then NO_EXT else req.ext)
  }

  /** A key that the directory's own header comes before in every search. */
  predicate Own(s: Store, k: Key) {
    k.dir in s.dirs && k.name == s.dirs[k.dir].name && k.ext == NO_EXT
  }

  /** A key that blank slots match. */
  predicate Blank(s: Store, k: Key) {
    k.dir in s.dirs && k.name == NO_NAME && k.ext == NO_EXT && s.dirs[k.dir].entries < 63
  }

  /** A node of that name is there already; a folder's request does not look at extensions. */
  ghost predicate NameTaken(s: Store, req: Request) {
    exists k: Key :: k in s.nodes && k.dir == req.parent && k.name == req.name && (req.size == 0 || k.ext == req.ext)
  }

  /** The request is for a directory of the store, under a name that may be used there, and there is room
      for its entry. */
  ghost predicate Admitted(s: Store, req: Request) {
    && req.parent in s.dirs
    && (Own(s, NewKey(req)) || (!NameTaken(s, req) && !Blank(s, NewKey(req))))
    && s.free > 0 && s.dirs[req.parent].entries < 63
  }

  /** The one request that the store does not answer for: a file that would run out of clusters midway. */
  ghost predicate Overruns(s: Store, req: Request) {
    Admitted(s, req) && s.free < Need(req.size)
  }

  ghost function WriteAnswer(s: Store, req: Request): int {
    if req.parent !in s.dirs then 2
    else if !Own(s, NewKey(req)) && (NameTaken(s, req) || Blank(s, NewKey(req))) then 1
    else if !Admitted(s, req) || Overruns(s, req) then -1
    else 0
  }

  /** What a read returns, and what it says of the 512 bytes that the caller gets: how they start. */
  datatype Answer = Answer(code: int, start: seq<Byte>)

  /** The first block's worth of bytes. */
  function Start(b: seq<Byte>): (start: seq<Byte>)
    ensures |start| <= 512 && start <= b
  {
    if |b| <= 512 then b else b[..512]
  }

  /** A directory's cluster starts with its header's 32 bytes. */
  function HeaderOf(i: Dir): (b: seq<Byte>)
    ensures |b| == 32
  {
    EncodeEntry(Header(ZERO_ENTRY, i.name, i.parent))
  }

  function ReadAnswer(s: Store, r: Request): (a: Answer)
    ensures |a.start| <= 512 && (a.code != 0 ==> a.start == [])
  {
    var k := Key(r.parent, r.name, r.ext);
    if r.parent !in s.dirs then Answer(-1, [])
    else if Own(s, k) || Blank(s, k) then Answer(0, Signature())
    else if k !in s.nodes then Answer(3, [])
    else
      match s.nodes[k]
      case Folder(c) => Answer(0, if c in s.dirs then HeaderOf(s.dirs[c]) else [])
      case File(b) => if r.size < |b| then Answer(2, []) else Answer(0, Start(b))
  }

  ghost function AnswerTo(s: Store, op: Op): Answer {
    match op
    case Initialize => Answer(0, [])
    case Read(r) => ReadAnswer(s, r)
    case Write(req, _) => Answer(WriteAnswer(s, req), [])
  }

  /** Clusters are given out in order, so the first free one follows from their number. */
  function NewNode(s: Store, req: Request, buf: seq<Byte>): Node {
    if req.size == 0 then Folder(512 - s.free) else File(if req.size <= |buf| then buf[..req.size] else buf)
  }

  /** One cluster for a folder, ceil(size / 2048) for a file. */
  function Cost(size: nat): nat {
    if size == 0 then 1 else Need(size)
  }

  /** The parent has one more entry; a folder is a directory without any. */
  function GrowDirs(dirs: map<nat, Dir>, req: Request, c: nat): map<nat, Dir>
    requires req.parent in dirs
  {
    var parent := dirs[req.parent];
    var grown := dirs[req.parent := parent.(entries := parent.entries + 1)];
    if req.size == 0 then grown[c := Dir(req.name, req.parent, 0)] else grown
  }

  /** What directory c becomes when the request's entry is added, and a folder at cluster added if it is for one. */
  predicate GrownDir(dirs: map<nat, Dir>, req: Request, added: nat, c: nat, i: Dir)
    requires req.parent in dirs
  {
    if req.size == 0 && c == added then i == Dir(req.name, req.parent, 0)
    else if c == req.parent then i == dirs[c].(entries := dirs[c].entries + 1)
    else c in dirs && i == dirs[c]
  }

  lemma {:induction false} GrowDirsAre(dirs: map<nat, Dir>, req: Request, c: nat)
    requires req.parent in dirs
    ensures var grown := GrowDirs(dirs, req, c);
            && grown.Keys == (if req.size == 0 then dirs.Keys + {c} else dirs.Keys)
            && forall x: nat | x in grown :: GrownDir(dirs, req, c, x, grown[x])
  {
  }

  function Grow(s: Store, req: Request, buf: seq<Byte>): Store
    requires req.parent in s.dirs && s.free >= Cost(req.size)
  {
    Store(if Own(s, NewKey(req)) then s.nodes else s.nodes[NewKey(req) := NewNode(s, req, buf)],
          GrowDirs(s.dirs, req, 512 - s.free),
          s.free - Cost(req.size))
  }

  lemma {:induction false} GrowIs(s: Store, req: Request, buf: seq<Byte>, own: bool, c: nat, node: Node, s': Store)
    requires own == Own(s, NewKey(req)) && c == 512 - s.free && node == NewNode(s, req, buf)
    requires req.parent in s.dirs && Cost(req.size) <= s.free && s' == Grow(s, req, buf)
    ensures s'.nodes == if own then s.nodes else s.nodes[NewKey(req) := node]
    ensures s'.dirs == GrowDirs(s.dirs, req, c)
    ensures s'.free + Cost(req.size) == s.free
  {
  }

  ghost function StoreStep(s: Store, op: Op): Store {
    if op.Write? && WriteAnswer(s, op.req) == 0 then Grow(s, op.req, op.buf) else s
  }

  ghost function StoreRun(s: Store, ops: seq<Op>): Store
    decreases |ops|
  {
    if ops == [] then s else StoreRun(StoreStep(s, ops[0]), ops[1..])
  }

  ghost function Answers(s: Store, ops: seq<Op>): (a: seq<Answer>)
    ensures |a| == |ops|
    decreases |ops|
  {
    if ops == [] then [] else [AnswerTo(s, ops[0])] + Answers(StoreStep(s, ops[0]), ops[1..])
  }

  /** No file of the run runs out of clusters midway, by the store's own count. */
  ghost predicate StoreFits(s: Store, ops: seq<Op>)
    decreases |ops|
  {
    ops == [] || (!(ops[0].Write? && Overruns(s, ops[0].req)) && StoreFits(StoreStep(s, ops[0]), ops[1..]))
  }

  /** Nothing in the store is ever lost or overwritten, because a successful write adds a key that is new. */
  lemma {:induction false} NodesSurvive(s: Store, ops: seq<Op>, k: Key)
    requires k in s.nodes
    ensures var e := StoreRun(s, ops); k in e.nodes && e.nodes[k] == s.nodes[k]
    decreases |ops|
  {
    if ops != [] {
      var req := if ops[0].Write? then ops[0].req else Request(k.name, k.ext, 0, 0);
      assert NewKey(req) in s.nodes ==> NameTaken(s, req);
      NodesSurvive(StoreStep(s, ops[0]), ops[1..], k);
    }
  }
}
