/** The imperative driver in use: requests issued one after another do to its disk image what Run says and
    give back what Outcomes says, so the theorems about runs hold of the driver. */
module FatSession {
  import opened Bytes
  import opened Layout
  import opened FatSpec
  import opened FatDriver
  import opened FatRuns
  import opened FatTables
  import opened FatNew
  import opened FatHonest
  import opened FatTree
  import opened FatFresh
  import opened FileStore
  import opened FatHolds
  import opened FatRefines

  /** What the driver demands of the caller of a request. */
  predicate Servable(d: Disk, op: Op) {
    match op
    case Initialize => true
    case Read(req) =>
      Reached(req.parent) < 2048 && (ReadCode(d, req) == 0 ==> ReadCluster(d, req) < 2048)
    case Write(req, buf) =>
      Reached(req.parent) < 2048
      && (Accepted(d, req) && req.size > 0 ==> 2048 * |Chosen(Fat(d), req.size)| <= |buf|)
  }

  predicate ServableRun(d: Disk, ops: seq<Op>)
    decreases |ops|
  {
    ops == [] || (Servable(d, ops[0]) && ServableRun(Step(d, ops[0]), ops[1..]))
  }

  /** One request to a mounted driver, initialising again included. */
  method Perform(driver: Driver, op: Op) returns (r: Outcome)
    requires driver.Valid() && driver.Mounted() && Signed(driver.Disk()) && Servable(driver.Disk(), op)
    modifies driver.image, driver.fatTable, driver.dirTableBuf, driver.clusterBuf, driver`log
    ensures driver.Disk() == Step(old(driver.Disk()), op)
    ensures r == OutcomeOf(old(driver.Disk()), op)
    ensures driver.Mounted() && Signed(driver.Disk())
  {
    match op
    case Initialize =>
      driver.Initialize();
      r := Outcome(0, []);
    case Read(req) =>
      var buf := new Byte[512](_ => 0);
      var code := driver.Read(req, buf);
      r := Outcome(code, if code == 0 then buf[..] else []);
    case Write(req, buf) =>
      WriteKeepsBoot(driver.Disk(), req, buf);
      var code := driver.Write(req, buf);
      r := Outcome(code, []);
  }

  /** Any number of requests: the image follows Run, every outcome comes back, and after each request the
      cached FAT is the one on the disk and the boot sector is signed. */
  method Serve(driver: Driver, ops: seq<Op>) returns (rs: seq<Outcome>)
    requires driver.Valid() && driver.Mounted() && Signed(driver.Disk()) && ServableRun(driver.Disk(), ops)
    modifies driver.image, driver.fatTable, driver.dirTableBuf, driver.clusterBuf, driver`log
    ensures driver.Disk() == Run(old(driver.Disk()), ops)
    ensures rs == Outcomes(old(driver.Disk()), ops)
    ensures driver.Mounted() && Signed(driver.Disk())
  {
    rs := [];
    for i := 0 to |ops|
      invariant driver.Mounted() && Signed(driver.Disk())
      invariant Run(driver.Disk(), ops[i..]) == Run(old(driver.Disk()), ops)
      invariant rs + Outcomes(driver.Disk(), ops[i..]) == Outcomes(old(driver.Disk()), ops)
      invariant ServableRun(driver.Disk(), ops[i..])
    {
      assert ops[i..][0] == ops[i] && ops[i..][1..] == ops[i + 1..];
      var r := Perform(driver, ops[i]);
      rs := rs + [r];
    }
  }

  // ---- the first mount ----

  ghost predicate AllZero(image: seq<Byte>) {
    |image| == 0x40_0000 && ZeroBytes(image)
  }

  lemma {:induction false} ZeroDisk(image: seq<Byte>, i: ClusterNo)
    requires AllZero(image)
    ensures ZeroBytes(Clusters(image)[i])
  {
    ClusterBytes(image, i);
  }

  lemma {:induction false} BlankUnsigned(d: Disk)
    requires ZeroBytes(d[0])
    ensures !Signed(d)
  {
    assert d[0][..512][0] == 0;
  }

  lemma {:induction false} ZeroFat(c: Cluster, f: FatTable)
    requires ZeroBytes(c) && f == DecodeFat(c)
    ensures forall i: MapIndex :: f[i] == EMPTY
  {
    forall i: MapIndex
      ensures f[i] == EMPTY
    {
      FatEntry(c, i);
    }
  }

  /** The driver as the kernel starts it, over a zeroed image. */
  method Start(image: array<Byte>) returns (driver: Driver)
    requires AllZero(image[..])
    ensures driver.Valid() && driver.image == image
    ensures fresh(driver) && fresh(driver.fatTable) && fresh(driver.dirTableBuf) && fresh(driver.clusterBuf)
    ensures !Signed(driver.Disk()) && forall i: ClusterNo :: BlankEntries(TableOf(driver.Disk(), i))
    ensures (forall i: MapIndex :: driver.Cached()[i] == EMPTY) && BlankEntries(driver.TableBuf())
  {
    driver := new Driver(image);
    forall i: ClusterNo
      ensures BlankEntries(TableOf(driver.Disk(), i))
    {
      ZeroDisk(image[..], i);
      BlankIsZero(driver.Disk()[i], TableOf(driver.Disk(), i));
    }
    ZeroDisk(image[..], 0);
    BlankUnsigned(driver.Disk());
    ZeroFat(driver.fatTable[..], driver.Cached());
    BlankIsZero(driver.dirTableBuf[..], driver.TableBuf());
  }

  /** Mounting an unsigned disk creates a file system on it. */
  method Format(driver: Driver)
    requires driver.Valid() && !Signed(driver.Disk())
    modifies driver.image, driver.fatTable, driver.dirTableBuf, driver.clusterBuf, driver`log
    ensures driver.Mounted()
    ensures IsCreated(old(driver.Disk()), old(driver.Cached()), old(driver.TableBuf()), driver.Disk())
  {
    ghost var d, f, t, c := driver.Disk(), driver.Cached(), driver.dirTableBuf[..], driver.clusterBuf[..];
    driver.Initialize();
    CreateLogCreates(d, f, t, c, driver.Disk());
  }

  /** The first mount of a zeroed image: the driver formats it, and the disk then holds the new store. */
  method FirstMount(image: array<Byte>) returns (driver: Driver)
    requires AllZero(image[..])
    modifies image
    ensures driver.Valid() && driver.image == image
    ensures fresh(driver) && fresh(driver.fatTable) && fresh(driver.dirTableBuf) && fresh(driver.clusterBuf)
    ensures driver.Mounted() && IsNew(driver.Disk()) && Refines(driver.Disk(), map[], NewStore())
  {
    driver := Start(image);
    ghost var d, f, t := driver.Disk(), driver.Cached(), driver.TableBuf();
    Format(driver);
    CreatedNew(d, f, t, driver.Disk());
    NewRefines(driver.Disk());
  }

  // ---- sessions ----

  /** The block of the parent's cluster number, which wraps at 32 bits, is on the disk. */
  predicate ParentOnDisk(op: Op) {
    match op
    case Initialize => true
    case Read(req) => Reached(req.parent) < 2048
    case Write(req, _) => Reached(req.parent) < 2048
  }

  lemma {:induction false} StepServable(d: Disk, o: Owner, s: Store, op: Op)
    requires Refines(d, o, s) && Fair(d, s, op) && !(op.Write? && Overruns(s, op.req)) && ParentOnDisk(op)
    ensures Servable(d, op)
  {
    match op
    case Initialize =>
    case Read(r) => ReadAnswered(d, o, s, r);
    case Write(req, _) =>
      WriteAnswered(d, o, s, req);
      if req.size > 0 {
        ChosenFew(Fat(d), req.size);
      }
  }

  lemma {:induction false} TrackedServable(d: Disk, o: Owner, s: Store, ops: seq<Op>)
    requires Refines(d, o, s) && StoreFits(s, ops) && FairRun(d, s, ops) && forall op | op in ops :: ParentOnDisk(op)
    ensures ServableRun(d, ops)
    decreases |ops|
  {
    if ops != [] {
      StepServable(d, o, s, ops[0]);
      StepRefines(d, o, s, ops[0]);
      TrackedServable(Step(d, ops[0]), OwnerStep(d, o, ops[0]), StoreStep(s, ops[0]), ops[1..]);
    }
  }

  /** Whatever requests follow: if each names a directory of the store or a parent that is rejected, and by the
      store's own count no file runs out of clusters midway, then every code and block that comes back is what
      the store answers, and the disk holds the store's new state, ready for more. */
  method ServeTracked(driver: Driver, ghost o: Owner, ghost s: Store, ops: seq<Op>) returns (rs: seq<Outcome>)
    requires driver.Valid() && driver.Mounted() && Refines(driver.Disk(), o, s)
    requires StoreFits(s, ops) && FairRun(driver.Disk(), s, ops) && forall op | op in ops :: ParentOnDisk(op)
    modifies driver.image, driver.fatTable, driver.dirTableBuf, driver.clusterBuf, driver`log
    ensures |rs| == |ops| && forall i | 0 <= i < |ops| :: Explains(Answers(s, ops)[i], rs[i])
    ensures driver.Mounted() && driver.Disk() == Run(old(driver.Disk()), ops)
    ensures Refines(driver.Disk(), OwnerRun(old(driver.Disk()), o, ops), StoreRun(s, ops))
  {
    ghost var d := driver.Disk();
    TrackedServable(d, o, s, ops);
    RunRefines(d, o, s, ops);
    forall i | 0 <= i < |ops|
      ensures Explains(Answers(s, ops)[i], Outcomes(d, ops)[i])
    {
      FitsPrefix(s, ops, i);
      RunAnswered(d, o, s, ops, i);
    }
    rs := Serve(driver, ops);
  }
}
