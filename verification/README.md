# A verified model of the FAT driver, the block disks and the keyboard input

The kernel stores files on a 4 MiB disk with a small FAT file system: 2048 clusters of 2048 bytes, a boot
sector in cluster 0, one allocation table of 512 entries in cluster 1, the root directory in cluster 2. The
driver keeps a copy of the table in memory and changes the disk one cluster at a time. This project models
that driver on byte arrays, statement by statement, proves it against a functional description of the disk
(the reference, `FatSpec.dfy`), and proves of that description what the driver is for: files survive later
writes at every single disk write, chains hold the bytes that were written, the allocator is exact and
conserves clusters, and a disk that started empty is a directory tree that refines a map from names to contents.

The second part is keyboard input: the interrupt handler, the line buffer, the hardware cursor and the text
framebuffer, over every sequence of scancodes. The third part is what both stand on: the memory routines, the
image in memory that the file inserter uses as its disk, and the ATA drive behind its ports.

| files | what they hold |
|---|---|
| `Bytes.dfy`, `Layout.dfy` | integers of fixed width, the packed structures as bytes, round trips both ways |
| `StdMem.dfy`, `BlockDisk.dfy` | the memory routines; the image in memory and the ATA drive |
| `FatSpec.dfy`, `FatChains.dfy` | what each operation does to the disk, as functions; chains of free clusters |
| `FatDriver.dfy` | the driver: a class over four byte arrays, with a ghost log of its disk writes |
| `FatSafety.dfy`, `FatFiles.dfy` | what a request may touch at each of its disk writes; files, chains and walks |
| `FatEffect.dfy`, `FatAlloc.dfy` | the disk after a whole request; the allocator in sets of clusters |
| `FatRuns.dfy`, `FatPacked.dfy` | runs of requests, failed ones included; no holes in the table |
| `FatTables.dfy`, `FatNew.dfy`, `FatHonest.dfy` | directory tables; new file systems; which clusters pass the directory check |
| `FatFolders.dfy` | folders and their parent links, through every run |
| `FatTree.dfy`, `FatFresh.dfy`, `FatMidway.dfy` | the directory tree, orderly runs, and what running out of clusters midway does to it |
| `FatKept.dfy` | when the names in every directory stay distinct, through every run |
| `FatMap.dfy`, `FileStore.dfy`, `FatHolds.dfy`, `FatRefines.dfy` | the disk as a map; a store without a disk; the driver refines it |
| `FatSession.dfy` | the class in use |
| `Framebuffer.dfy`, `Keyboard.dfy`, `KeyboardRuns.dfy` | screen and cursor; the interrupt handler; its runs |

Main results, each for all inputs:

- At every disk write of every request, from any mounted disk, only free table entries, free clusters and one
  slot of the parent's table have changed (`FatSafety.EveryWriteConfined`). A complete file is intact at each of
  them if and only if the request does not name one of the file's own clusters as its parent
  (`FatFiles.FilesSafeAtEveryWrite`), and over whole runs likewise (`FatRuns.FileSurvivesRun`).
- A file write that returns 0 leaves a chain of exactly ceil(size / 2048) clusters, the smallest free ones in
  ascending order, that holds the buffer (`FatEffect.FileIsStored`, `FatAlloc.AllocatorExact`); it returns 0
  if and only if there is a slot and there are clusters enough.
- After any further requests, failed ones included, reading the file back returns its first block
  (`FatRuns.ReadAfterWrite`) and its chain still holds all of it (`FatRuns.ContentAfterRun`).
- Through every run from a new file system, failed writes included, the allocated clusters are an interval and
  the parent links lead from every folder to the root (`FatPacked.RunStaysPacked`, `FatFolders.RunReachesRoot`).
- The live names of every directory's table are pairwise distinct, up to the directory's own, through every run
  from a new file system in which no folder is created right after a file ran out of clusters midway
  (`FatKept.NamesStayDistinct`); in general exactly as long as each new folder finds a cluster whose content keeps
  them so (`FatKept.StepKeepsTables`, `FatKept.RunKeepsTables`).
- In orderly runs the allocated clusters are partitioned into root, folders and chains
  (`FatFresh.RunPartitions`). A request leaves a directory tree if and only if it does not run out of clusters
  midway (`FatMidway.TreeKeptExactly`).
- The driver refines a store without a disk, which says by itself what every request returns: every code and
  every block of a run is the store's answer, whatever the files contain, as long as each request names one of the
  store's directories or a parent that is rejected, and no file has run out of clusters midway
  (`FatRefines.RunRefines`, `FatRefines.RunAnswered`); for the class over byte arrays too (`FatSession.ServeTracked`).
- The line buffer is what a line editor makes of the committed keys, for every sequence of scancodes
  (`KeyboardRuns.RunTracks`), and cursor and screen agree with it (`KeyboardRuns.ScreenShowsLine`).

Where comments and code of the repository disagree, the model follows the code:

- `isExist` returns an index, so a match in slot 0 counts as "not there" although its comment promises 0 or 1.
  `FatTables.DuplicateExact` says exactly which duplicates are refused; `FatTables.DuplicateMissed` is one that is not.
- `read` promises the file and a code 1 for "not a file". It copies one block, looks at the low half of the
  cluster number only, and reads folders like files. `FatMap.ReadWhole` says exactly when the caller gets the
  whole file, and `FatMap.ReadFollowsMap` what happens for folders and for names the search finds too early.
- `isDirectory` looks at two fields, so a file's content can pass for a directory. `FatHonest.FileImitates`
  says exactly when. Where no content does, only directories ever pass the check (`FatHonest.StepOnlyDirectories`),
  so every other parent is rejected (`FatFolders.HonestReachesRoot`, `FatRefines.HonestRunRefines`).
- `validateWrite` admits parent 512, which the table does not map. Cluster 512 exists on the disk and the model admits it too.
- `init_directory_table` stores the parent's number with its halves the other way round than `writeEntry`
  stores a cluster's; each is decoded in its own order.
- The last cluster of a file takes 2048 bytes from the caller's buffer even if fewer are left, so the buffer
  must be that long; the driver's precondition says so.
- A file that runs out of clusters midway is already entered in its parent's table, and its last cluster is
  still marked free, although `write` then returns -1 as if nothing had happened. No other failure changes the
  disk (`FatAlloc.FailureAtomic`). The one cluster left free is that last one, and the next request that is
  accepted takes it (`FatMidway.LastStaysFree`, `FatMidway.NextRequestShares`): the failed file's chain is then
  complete and shares the cluster with the new file or folder (`FatMidway.BothEntered`). A new folder finds the
  failed file's last 2048 bytes in its table (`FatMidway.FolderInherits`), and they alone decide whether its names
  are distinct (`FatMidway.FolderSpoiled`). All this happens on a new file system with the first file that is too
  large and a second entry (`FatMidway.FailsThenAccepts`, `FatKept.NamesLostExactly`, `FatKept.NamesLost`).
- A parent that is itself free but looks like a directory, left from before the format or from a failed file, may
  be chosen for the content, which then goes over the new entry (`FatEffect.FileIsEntered`, `FatEffect.WriteGrows`).

A run is *orderly* if each write names a tracked directory or a parent that the driver rejects, and no file
write runs out of clusters midway. A request is *honest* if no cluster of its content looks like a directory
header. From a new file system, honest requests are orderly as long as no file runs out
(`FatRefines.HonestRunRefines`).

## Model

| member | source | states |
|---|---|---|
| StdMem.MemSet | src/stdmem.c:4-9 | n bytes from the offset become c cut to 8 bits; no other byte changes |
| StdMem.MemCpy | src/stdmem.c:11-17 | the first n source bytes are at the destination; no other byte changes |
| StdMem.MemMove | src/stdmem.c:32-44 | for every overlap of the two ranges the destination holds what the source range held before |
| StdMem.MemCmp | src/stdmem.c:19-30 | the sign of the first difference; 0 if and only if the buffers are equal |
| StdMem.CompareAntisymmetric | src/stdmem.c:19-30 | swapping the buffers flips the sign |
| StdMem.CompareTransitive | src/stdmem.c:19-30 | the order is transitive, and equal ends mean that all three buffers are equal |
| BlockDisk.ReadBlocks | src/external-inserter.c:34-37 | the caller's buffer starts with the bytes of the named blocks and is otherwise unchanged |
| BlockDisk.WriteBlocks | src/external-inserter.c:39-42 | the named blocks of the image hold the buffer; every other block is unchanged |
| BlockDisk.ReadBack | src/external-inserter.c:34-42 | blocks read after a write return what was written; blocks outside it return what they did before |
| BlockDisk.AddressRecomposed | src/filesystem/disk.c:14-18 | the four address bytes sent to the ports make up the low 28 bits of the block number again |
| BlockDisk.AtaDrive.Start | src/filesystem/disk.c:14-19 | after the register writes the drive is about to transfer the named blocks, from the first word on |
| BlockDisk.AtaDrive.ReadBlocks | src/filesystem/disk.c:12-31 | the word stream leaves the buffer exactly as the image in memory would, for every 28-bit address, and ends the transfer |
| BlockDisk.AtaDrive.WriteBlocks | src/filesystem/disk.c:33-51 | the word stream leaves the medium exactly as the image in memory would, for every 28-bit address, and ends the transfer |
| Layout.FatRoundTrip | src/filesystem/fat32.h:59-61 | decoding an encoded table of 32-bit entries gives the table back |
| Layout.FatBytesRoundTrip | src/filesystem/fat32.h:59-61 | encoding a decoded cluster gives its bytes back |
| Layout.FatStore | src/filesystem/fat32.h:59-61 | storing one entry changes its own four bytes only |
| Layout.EntryRoundTrip | src/filesystem/fat32.h:83-99 | decoding an encoded directory entry gives all its fields back |
| Layout.EntryBytesRoundTrip | src/filesystem/fat32.h:83-99 | any 32 bytes are an entry that encodes to them |
| Layout.TableRoundTrip | src/filesystem/fat32.h:102-104 | decoding an encoded directory table gives the table back |
| Layout.TableBytesRoundTrip | src/filesystem/fat32.h:102-104 | encoding a decoded cluster of entries gives its bytes back |
| Layout.EntryStore | src/filesystem/fat32.h:102-104 | storing one directory entry changes its own 32 bytes only |
| Layout.ClusterStore | src/filesystem/fat32.c:75-78 | patching 2048 bytes of the image at a cluster's place changes that cluster only |
| FatDriver.ClusterToLba | src/filesystem/fat32.c:22-24 | four blocks a cluster, without wrap-around below 2^30 |
| FatDriver.Driver.constructor | src/filesystem/fat32.c:18 | the driver's state starts as zeros |
| FatDriver.Driver.WriteClusters | src/filesystem/fat32.c:75-78 | for every count, whose block count is cut to 8 bits, the image holds the buffer in the clusters named and is otherwise unchanged |
| FatDriver.Driver.ReadClusters | src/filesystem/fat32.c:80-83 | for every count, whose block count is cut to 8 bits, the buffer starts with the clusters that the wrapped block number reaches |
| FatDriver.Driver.SaveCluster | src/filesystem/fat32.c:75-78 | with count 1, the disk differs in one cluster, which holds the buffer; the write is logged |
| FatDriver.Driver.LoadCluster | src/filesystem/fat32.c:80-83 | with count 1, the buffer is the cluster that the wrapped block number reaches |
| FatDriver.Driver.FindEmptyCluster | src/filesystem/fat32.c:145-152 | the first cluster of the free list of the cached table, 0 if there is none |
| FatDriver.Driver.FindNextEmptyCluster | src/filesystem/fat32.c:155-166 | the first free cluster behind i, 0 if there is none or i is out of range |
| FatDriver.FindEmptyEntry | src/filesystem/fat32.c:169-176 | the first slot from 1 on that is not live, 0 if all are |
| FatDriver.IsDirectoryTable | src/filesystem/fat32.c:180-187 | true exactly if entry 0 is live and has size 0 |
| FatDriver.IsExist | src/filesystem/fat32.c:191-205 | the first slot that clashes (name only for folders, name and extension for files), with 0 for none and for slot 0 alike |
| FatDriver.ValidateWrite | src/filesystem/fat32.c:208-223 | 2 for a bad parent, else 1 for a clash in a slot other than 0 that is the first one, else 0 |
| FatDriver.WriteEntry | src/filesystem/fat32.c:226-240 | one slot of the table buffer becomes the new entry, unassigned fields kept; all other slots stay |
| FatDriver.InitDirectoryTable | src/filesystem/fat32.c:28-35 | entry 0 becomes a header with the parent's halves swapped; all other entries stay |
| FatDriver.Driver.IsEmptyStorage | src/filesystem/fat32.c:38-42 | true exactly if block 0 is not the signature |
| FatDriver.Driver.CreateFat32 | src/filesystem/fat32.c:45-62 | the three writes it makes, in order, from whatever the buffers held; the disk is then signed and the cached table is the one on it |
| FatDriver.Driver.Initialize | src/filesystem/fat32.c:65-73 | afterwards the disk is signed and the cached table is the one on it; a signed disk is not written at all |
| FatDriver.FindNamed | src/filesystem/fat32.c:124-136 | the first slot with the name and extension, 64 if there is none |
| FatDriver.Driver.Read | src/filesystem/fat32.c:116-141 | the result code of the reference, and on 0 one block of the entry's cluster in the caller's buffer, else the buffer unchanged |
| FatDriver.Driver.LoadParent | src/filesystem/fat32.c:243-249 | the validation code of the reference for the parent on the disk, whose table is then in the buffer |
| FatDriver.Driver.StoreParent | src/filesystem/fat32.c:258-260 | exactly the parent's cluster changes, by exactly the new entry, in one disk write |
| FatDriver.Driver.WriteFolder | src/filesystem/fat32.c:263-270 | the folder's two disk writes, in order, and the cached table is again the one on the disk |
| FatDriver.Driver.StoreChunk | src/filesystem/fat32.c:283-289 | one cluster of content is on the disk and the table is reloaded unchanged |
| FatDriver.Driver.LinkChunk | src/filesystem/fat32.c:299-301 | the cluster just stored is linked to the next one, in the cached table and on the disk |
| FatDriver.Driver.EndChunk | src/filesystem/fat32.c:290-306 | the cluster just stored ends the chain, and the writes so far are all those of the reference |
| FatDriver.Driver.NextInChain | src/filesystem/fat32.c:295-298 | the next cluster is the next one of the list chosen beforehand; 0 exactly at its end when it does not suffice |
| FatDriver.Driver.WriteFile | src/filesystem/fat32.c:272-307 | the loop makes exactly the disk writes of the reference, round by round, and stops where the chosen clusters end |
| FatDriver.Driver.Write | src/filesystem/fat32.c:242-309 | result code, disk and the sequence of all disk writes are those of the reference, from any mounted disk; the cached table stays the one on the disk |
| FatChains.FreeFromExact | src/filesystem/fat32.c:145-166 | the free list holds every empty entry from i on, once, in ascending order |
| FatChains.ChosenTakeable | src/filesystem/fat32.c:252-305 | a request takes a prefix of the free list: ceil(size / 2048) of it, one for a folder, all of it if it is too short |
| FatChains.ClosedAt | src/filesystem/fat32.c:289-306 | the finished table links each chosen cluster to the next, ends the last, and keeps every other entry |
| FatChains.NextFree | src/filesystem/fat32.c:155-166 | searching on from the chain's tail in the half-linked table finds the rest of the original free list |
| FatChains.RoundDecides | src/filesystem/fat32.c:278-305 | the remaining bytes and the next free cluster tell in each round whether the chain ends, breaks off or goes on |
| FatSafety.EveryWriteConfined | src/filesystem/fat32.c:242-309 | after any number of the request's disk writes only free entries, free clusters and the parent's one slot differ |
| FatFiles.FilesSafeAtEveryWrite | src/filesystem/fat32.c:242-309 | after any number of the request's disk writes a complete file has its entry, its chain and its bytes, if and only if no write was made yet or the request's parent is none of the file's clusters |
| FatFiles.LinksAscendAtEveryWrite | src/filesystem/fat32.c:278-306 | no disk write makes a link to a smaller cluster or outside the table |
| FatFiles.VisitIsChain | src/filesystem/fat32.c:289-306 | from any table, a walk with steps enough from a chain's first cluster visits that chain and stops |
| FatFiles.WalkIsChain | src/filesystem/fat32.c:289-306 | with ascending links no more steps are needed than the table has entries |
| FatFiles.WalksEnd | src/filesystem/fat32.c:155-166 | with ascending links a walk from c ends within 512 - c steps |
| FatEffect.FileIsStored | src/filesystem/fat32.c:272-308 | on 0 there is an ascending complete chain of exactly ceil(size / 2048) clusters whose data starts with the buffer's size bytes |
| FatEffect.FileIsWalked | src/filesystem/fat32.c:272-308 | on 0, from any table, the walk from the new entry's cluster visits exactly ceil(size / 2048) clusters, the chosen ones, however many steps it may take |
| FatEffect.FileIsEntered | src/filesystem/fat32.c:252-308 | on 0 the chain is complete, and the parent's free slot holds a live entry that leads to it, no other slot changed, if and only if the content spares the parent's table |
| FatEffect.WriteGrows | src/filesystem/fat32.c:242-309 | a request that returns 0 does to the allocation table, the parent, the new folder and all other clusters exactly what it should, if and only if its content spares the parent's table, which is sure unless the parent's cluster is free |
| FatAlloc.AllocatorExact | src/filesystem/fat32.c:145-176 | a valid file is written if and only if there is a slot and there are enough empty entries; it takes that many, all smaller than any left |
| FatAlloc.FailureAtomic | src/filesystem/fat32.c:242-309 | a failed write changes nothing if and only if it did not run out of clusters midway, or overwrote the parent's own free cluster, the last one, with what it held |
| FatAlloc.FreeCountAfter | src/filesystem/fat32.c:242-309 | the number of empty entries drops by one a folder and ceil(size / 2048) a file, by nothing for a rejected request, and to one for a file that runs out |
| FatRuns.RunStaysSigned | src/filesystem/fat32.c:38-73 | the boot sector outlives every run, so initialising again never formats |
| FatRuns.FileSurvivesRun | src/filesystem/fat32.c:242-309 | a complete file keeps entry, chain and bytes through a run if and only if no request of it is accepted with one of the file's clusters as its parent |
| FatRuns.RunKeepsLive | src/filesystem/fat32.c:226-240 | a slot of an allocated cluster that is live stays live through every run |
| FatRuns.ChainSurvivesRun | src/filesystem/fat32.c:272-308 | a complete chain keeps its links and bytes through a run that is not accepted into it, whatever its parent's cluster is |
| FatRuns.WalksStayFinite | src/filesystem/fat32.c:155-166 | links ascend after every run, failed writes included, so every walk ends |
| FatRuns.ClustersConserved | src/filesystem/fat32.c:116-309 | over a run, the empty entries left and the clusters taken add up to the empty entries at the start |
| FatRuns.NameSurvivesRun | src/filesystem/fat32.c:191-240 | no later request makes a name lead to another slot |
| FatRuns.ReadAfterWrite | src/filesystem/fat32.c:116-141 | after a file write that returned 0 and any further requests, a read returns 2 if its size is too small and else 0 with the first 512 bytes written |
| FatRuns.ContentAfterRun | src/filesystem/fat32.c:272-308 | after a file write that returned 0 and any further requests, the chain still holds all the bytes written |
| FatPacked.RunStaysPacked | src/filesystem/fat32.c:145-166 | from a new file system the allocated clusters stay an interval from 2 on and every link goes to the next cluster, failed writes included |
| FatPacked.ChainContiguous | src/filesystem/fat32.c:289-306 | in such a table every complete chain is contiguous |
| FatTables.WellKeptAfterEntry | src/filesystem/fat32.c:191-240 | an accepted request keeps a directory's live names pairwise distinct, except for the directory's own name |
| FatTables.DuplicateExact | src/filesystem/fat32.c:191-223 | code 1 if and only if a live entry clashes, or the blank name meets a blank slot, and slot 0 does not clash |
| FatTables.DuplicateMissed | src/filesystem/fat32.c:191-205 | a concrete second folder "root" that the check lets into a root directory that has one |
| FatTables.NewTableWellKept | src/filesystem/fat32.c:28-35 | a new folder's table passes the directory check, offers slot 1 first and leads back to its parent |
| FatTables.BlankIsZero | src/filesystem/fat32.h:83-104 | a table has only blank entries exactly if all its bytes are zero |
| FatTree.GrowthKeepsTree | src/filesystem/fat32.c:242-309 | a successful write keeps the whole tree: ownership of clusters, chains, directory tables, parent links, blank free clusters |
| FatNew.CreateLogCreates | src/filesystem/fat32.c:45-62 | what the three writes of create_fat32 leave on the disk |
| FatNew.CreatedNew | src/filesystem/fat32.c:45-62 | on a zeroed disk that is a root directory and nothing else |
| FatNew.NewCapacity | src/filesystem/fat32.c:145-176 | a new file system gives out 509 clusters: its first request is accepted, and returns 0 if and only if it needs no more |
| FatFresh.NewTree | src/filesystem/fat32.c:45-62 | a new file system is a tree of just the root |
| FatFresh.RunKeepsTree | src/filesystem/fat32.c:242-309 | every orderly run keeps the tree |
| FatFresh.RunPartitions | src/filesystem/fat32.c:45-309 | after every orderly run from a new file system the allocated clusters are the root's and those of the live entries' complete chains, one cluster a folder and ceil(size / 2048) a file, each in exactly one |
| FatFresh.TreeRootReached | src/filesystem/fat32.c:28-35 | in a tree the headers' swapped parent numbers lead from any directory to the root |
| FatFolders.StepKeepsFolders | src/filesystem/fat32.c:242-309 | every request, one that runs out midway included, keeps each folder allocated, larger than its parent, and leading back to it |
| FatFolders.RunReachesRoot | src/filesystem/fat32.c:28-35 | after every run from a new file system, midway failures included, the allocated clusters are an interval, folders exceed their parents, and the parent links reach the root |
| FatFolders.HonestParentsKnown | src/filesystem/fat32.c:208-223 | with honest contents, every parent that a run names is a directory or rejected |
| FatFolders.HonestReachesRoot | src/filesystem/fat32.c:28-35 | so from a new file system the parent links reach the root after every honest run, whatever parents it names |
| FatFresh.NewFolderReady | src/filesystem/fat32.c:263-270 | a folder created in a tree holds only its header, passes the directory check and offers slot 1 first |
| FatHonest.FileImitates | src/filesystem/fat32.c:180-187 | a stored cluster of a file passes the directory check if and only if five bytes of the content at that place say so |
| FatHonest.StepOnlyDirectories | src/filesystem/fat32.c:180-187 | honest requests, failed ones included, never make anything else pass it |
| FatMidway.NoChainLeft | src/filesystem/fat32.c:294-299 | after a file ran out midway no walk from its entry is a complete chain |
| FatMidway.TreeKeptExactly | src/filesystem/fat32.c:242-309 | an accepted request with a tracked parent leaves a tree, under any owners, if and only if it does not run out midway |
| FatMidway.LastStaysFree | src/filesystem/fat32.c:294-299 | then exactly one cluster is free, the last one the failed file stored to |
| FatMidway.FailsThenAccepts | src/filesystem/fat32.c:242-309 | on a new file system a first file of more than 509 clusters runs out midway, and a second entry of the root under another name is then accepted |
| FatMidway.NextRequestShares | src/filesystem/fat32.c:145-152 | the next accepted request takes that cluster and no other, and completes the failed file's chain if it returns 0 |
| FatMidway.BothEntered | src/filesystem/fat32.c:252-308 | then two live entries lead to complete chains that end in the same cluster |
| FatMidway.FolderInherits | src/filesystem/fat32.c:263-270 | a folder created next has the failed file's last 2048 bytes for its table, but for the header |
| FatMidway.FolderSpoiled | src/filesystem/fat32.c:263-270 | that table is well kept, its names distinct, if and only if what those 2048 bytes decode to is |
| FatKept.StepKeepsTables | src/filesystem/fat32.c:191-270 | any request, one that runs out midway included, keeps the names of all directories distinct if and only if a folder that it creates finds a cluster whose content does |
| FatKept.RunKeepsTables | src/filesystem/fat32.c:191-309 | over any run the names of all directories stay distinct after each request if and only if each folder of the run finds such a cluster |
| FatKept.NamesStayDistinct | src/filesystem/fat32.c:191-309 | from a new file system they do over every run, midway failures included, in which no folder is created while the last accepted write is one that ran out |
| FatKept.NamesLostExactly | src/filesystem/fat32.c:242-309 | after a first file that is too large and a folder, they are distinct if and only if the last 2048 bytes stored of the file say so |
| FatKept.NamesLost | src/filesystem/fat32.c:242-309 | a concrete content for which they are not |
| FatMap.SlotNamedExact | src/filesystem/fat32.c:124-133 | in a kept directory a name leads to a slot exactly if the slot is live and carries it and the directory itself does not |
| FatMap.WriteAddsKey | src/filesystem/fat32.c:242-309 | a write that returns 0 adds its key and content to the map and changes no other key |
| FatMap.ReadFollowsMap | src/filesystem/fat32.c:116-141 | read returns 3, 2 or 0 and the first bytes exactly as the map says, and reads the boot sector for the two names hidden by slot 0 or a blank slot |
| FatMap.ReadWhole | src/filesystem/fat32.c:137-140 | the caller's buffer holds the whole file whatever it held before, if and only if the file has at most 512 bytes |
| FatMap.HeaderReadsBoot | src/filesystem/fat32.c:28-35 | the low half of a header's cluster number is 0, so reading a directory's own name reads cluster 0 |
| FileStore.NodesSurvive | src/filesystem/fat32.c:191-240 | no run loses or overwrites a name of the store, because a successful write only ever adds a new one |
| FatRefines.ValidationAnswered | src/filesystem/fat32.c:191-223 | the validation code follows from the store: 2 for a parent that is none of its directories and is rejected, 1 for a name that is taken or blank, else 0 |
| FatRefines.WriteAnswered | src/filesystem/fat32.c:242-309 | write returns what the store says of names, entries and free clusters, and runs out midway exactly if the store says so |
| FatRefines.ReadAnswered | src/filesystem/fat32.c:116-141 | read returns what the store says, and what it copies starts with the file or with the folder's header, or is the boot sector for the two hidden names |
| FatRefines.StepRefines | src/filesystem/fat32.c:65-309 | every request whose parent is a directory of the store or rejected, and that does not run out midway, leaves a disk that holds the store's next state |
| FatRefines.RunRefines | src/filesystem/fat32.c:65-309 | so does every run of such requests in which by the store's count no file runs out; and the run is orderly |
| FatRefines.RunAnswered | src/filesystem/fat32.c:65-309 | over such runs every code and every block that comes back is the store's answer, the code of the first file that runs out included |
| FatRefines.HonestRunRefines | src/filesystem/fat32.c:65-309 | from a new file system every honest run in which no file runs out is such a run, whatever parents it names |
| FatRefines.NewRefines | src/filesystem/fat32.c:45-62 | a new file system holds the new store |
| FatSession.Perform | src/filesystem/fat32.c:65-309 | one request to the class gives back the code and block, and does to its image, what the step says, initialising again included; cached table and signature stay right |
| FatSession.Serve | src/filesystem/fat32.c:65-309 | any number of requests to the class give back the outcomes, and do to its image, what the run says |
| FatSession.FirstMount | src/filesystem/fat32.c:45-73 | mounting a zeroed image leaves a new file system, which holds the new store |
| FatSession.ServeTracked | src/filesystem/fat32.c:65-309 | every code and block that any number of such requests get from the class is the store's answer, and the image holds the store's new state, ready for more |
| Framebuffer.Screen.WriteCell | src/framebuffer.c:22-32 | the cell at a row and column gets the character and the colour byte; no other cell changes |
| Framebuffer.Screen.SetCursor | src/framebuffer.c:40-49 | the two cursor registers hold the cell number |
| Framebuffer.Screen.GetCursor | src/framebuffer.c:65-74 | row and column of the cursor's cell, row cut to 8 bits; the cursor stays |
| Framebuffer.CursorRoundTrip | src/framebuffer.c:40-74 | what was set is read back if and only if the column is on the screen |
| Framebuffer.Screen.Clear | src/framebuffer.c:56-63 | every cell of the screen is a grey space and the memory behind it is unchanged |
| Keyboard.Driver.Activate | src/keyboard/keyboard.c:29-31 | input goes on and nothing else changes |
| Keyboard.Driver.Deactivate | src/keyboard/keyboard.c:33-35 | input goes off and nothing else changes |
| Keyboard.Driver.GetBuffer | src/keyboard/keyboard.c:37-39 | the caller gets all 256 bytes of the line buffer, and nothing behind them changes |
| Keyboard.Driver.Backspace | src/keyboard/keyboard.c:78-97 | the step function's backspace, into the row above included |
| Keyboard.Driver.TypeChar | src/keyboard/keyboard.c:98-123 | the step function's character, with the 8-bit index and the row wrap |
| Keyboard.Driver.CommitKey | src/keyboard/keyboard.c:70-124 | the step function's commit of the pending key |
| Keyboard.Driver.ArrowKey | src/keyboard/keyboard.c:127-192 | the step function's arrow keys |
| Keyboard.Driver.Isr | src/keyboard/keyboard.c:46-196 | one interrupt takes the driver and the screen from state to state exactly as the step function does |
| KeyboardRuns.CommitTracks | src/keyboard/keyboard.c:70-124 | committing a key edits the line: append, backspace, Enter, and empty again on the 256th character |
| KeyboardRuns.RunTracks | src/keyboard/keyboard.c:46-126 | for every sequence of scancodes and of switching input on and off, the buffer up to its index is the editor's line |
| KeyboardRuns.EnterDelivers | src/keyboard/keyboard.c:71-77 | releasing Enter turns input off and leaves the line as a C string in the buffer |
| KeyboardRuns.LineStays | src/keyboard/keyboard.c:46-49 | the delivered buffer stays through every run in which no interrupt is handled with input on |
| KeyboardRuns.CursorSplit | src/framebuffer.c:40-74 | the neighbours of a cursor position by row and column are the neighbouring cells |
| KeyboardRuns.CommitShown | src/keyboard/keyboard.c:70-124 | committing a key keeps cursor and cells right through row wraps and backspaces, and writes nothing in front of the line |
| KeyboardRuns.RunShown | src/keyboard/keyboard.c:65-126 | the same over whole runs without arrow keys: nothing in front of the line's first cell is written |
| KeyboardRuns.ScreenShowsLine | src/keyboard/keyboard.c:65-126 | after every such run the cursor is line start plus index and the cells from the line's start show the editor's line |

## Left out

- `delete`: it clears the entry that does not match and table entries by loop counter, so it does not meet its own contract; runs do not include it.
- `read_directory` and `get_dir_name`: the first copies filesize bytes, which is 0 for folders and may overrun for files; the second returns a pointer.
- Paging, GDT, IDT, TSS, interrupt controller, assembly and linker scripts: constant tables and processor instructions.
- System calls, the shell and the `main` of the inserter: plumbing around the operations modelled here.
- ATA busy and ready waits: the modelled drive is always ready. A block count of 0, for which the drive starts a transfer that the loop never performs, is modelled but nothing is claimed about the drive afterwards.
- `pic_ack`: acknowledging the interrupt; the scancode read from the port is a parameter.
- FatDriver.Driver.WriteClusters: clusters outside the disk image are excluded; so are they for `ReadClusters`.
- FatDriver.Driver.Write: the caller's buffer and names are values, so a buffer that overlaps the driver's state or the disk is not modelled; neither is a parent number whose block lies outside the disk.
- FatDriver.Driver.Read: a parent number or an entry's cluster number outside the disk image is excluded, as the code would read outside the image; the caller's buffer must have 512 bytes, because the code copies that many whatever the request's size.
- FatDriver.WriteEntry: the fields of the packed entry are assigned on a value that is then stored as a whole, not one by one in the buffer; the same holds for `InitDirectoryTable`.
- FatRuns.ReadAfterWrite: requires an allocated parent directory, a name other than the directory's own, and that no later request is accepted with one of the file's clusters as its parent.
- FatFiles.FilesSafeAtEveryWrite: speaks of files whose entry is in an allocated cluster; `FatRuns.ChainSurvivesRun` and `FatRuns.ContentAfterRun` do without.
- FatFresh.RunPartitions: requires an orderly run; `FatMidway` says what the other ones leave.
- FatRefines.RunRefines: requires that each request names a directory of the store or a parent that is rejected, and that no file runs out midway; the store says nothing of requests into files that look like directories.
- FatRefines.RunAnswered: of the block that comes back, what follows the end of a shorter file is not described, nor are the entries behind a folder's header.
- FatKept.NamesStayDistinct: requires parents that are known or rejected; a file that looks like a directory is not counted as one.
- KeyboardRuns.ScreenShowsLine: arrow keys are excluded, because they move the cursor without moving the index, and every step must start with the cursor in a row before 255, where the 8-bit row wraps.
- Keyboard.Driver.ArrowKey: nothing further is claimed about arrow keys than that they leave the buffer and its index alone.
- The cursor's blinking and shape, and video memory beyond the 64 KiB that a 16-bit offset reaches, are not part of this model.
