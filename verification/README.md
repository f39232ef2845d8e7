# Verified models of the Hadris cores

Hadris reads and writes file systems and archives without doing any I/O of its own. This project
models three of its cores in Dafny and proves what they promise.

**The cpio engine** (`hadris-cpio`, `hadris-cpio-raw`). `CpioRaw` and `CpioHeader` are the header codecs
of newc, crc, odc and the old binary format. `CpioParse` says what a byte string means as an archive:
its entries and how it stops; `CpioRequests` what each request that runs into the end costs.
`CpioReader` is the streaming state machine over a source that answers each request with as many bytes
as it likes; `CpioReading` drives it by any pattern of requests. `CpioBuild` and `CpioWriter` plan and
write entries, hard-link groups and streamed files; `CpioTree` plans and writes a whole tree and reports
what was lost; `CpioRoundTrip` reads back what was written. `Nodes` and `NameTree` are the tree in
memory; `CpioGroups` and `CpioReadTree` read an archive into one and put hard-link groups together
again. `CpioTreeRoundTrip` joins the two ends: a tree written and read back is the same tree, as far as
an archive stores it.

**The FAT layer** (`hadris-fat-raw`, and the caches of `hadris-fat`). `FatLayout` plans a volume, and
`FatGranted` says in numbers which layout a request is granted and why one is refused; `FatBoot` writes
and accepts boot sectors, and `FatAccepted` says by their bytes which are accepted with what geometry;
`FatEntry` is the packed allocation table, `ChainGuard` and `FatChain` walk cluster chains and find loops,
`FatDate` is the timestamp codec, `FatSlot` and `FatLfn` are directory slots and long names,
`FatShortName` generates 8.3 names, `FatCache` and `FatChainCache` are the block cache and the index of
chain positions.

**The APFS reader** (`hadris-apfs`). `ApfsWalk` is the B-tree walk, `ApfsExtents` the extent reader,
`ApfsIndex` the index built at mount, `ApfsFs` reading a file by that index, and `ApfsDer` the DER cursor
of key blobs.

Objects that update their fields are classes, algorithms that fill a buffer work on arrays, and loops
are loops; each is proved against a specification function or an independent statement, and the
theorems are about those. What the specification functions themselves compute is fixed by laws in other
terms: bytes at offsets, ranges written as numbers, round trips. Integers are unbounded, so every width
that matters is written out: the 32-bit counters of the chain guard, the wrapping clock of the cache, the
16-bit name hash, the field widths of headers and boot sectors, the 64-bit address checks. The device is
a sequence of bytes or of blocks; short reads are nondeterministic choices, device failures and what a
failed write leaves are parameters.

## Where the comments say more than the code

- `fat_sectors` is described as the smallest FAT that covers its clusters
  (`crates/block/hadris-fat-raw/src/layout.rs:222`). It stops by its second pass with what the clusters
  beside one-sector FATs need, which can be more: `FatLayout.NotSmallest` gives 1016 sectors where 1001 do.
  It always covers, in at most two passes, and `FatLayout.SmallestExactly` says when it is the smallest:
  when it is one sector, or when FATs of one sector less would have too few entries for the clusters
  beside them.
- `ChainGuard` is described as finding a loop within about twice its length after the walk enters it
  (`crates/block/hadris-fat-raw/src/chain.rs:7`). After a long tail the next mark can be about a
  tail's length away: `ChainGuard.LateFinding` gives a loop of one cluster found 1024 moves after it was
  entered. `ChainGuard.FirstMeet` gives the exact move for every tail and loop, and
  `ChainGuard.SoonExactly` says when it comes within twice the loop's length: when some power of two no
  less than the loop lies past the tail and within the first turn.
- The reader's `offset` is described as the bytes consumed, and a request the stream cannot meet consumes
  the bytes that were there without counting them (`crates/archive/hadris-cpio/src/read.rs:271-275`,
  `crates/core/hadris-io/src/api.rs:17-25`): of the two bytes `07` one is counted, as
  `CpioReading.TornStream` has it. `CpioReading.OffsetLags` says exactly when `offset` falls behind: when
  the segment stops truncated and not where a request starts.
- The names of a hard link are described as sharing one inode
  (`crates/archive/hadris-cpio/src/write.rs:135-136`), but only regular files are grouped
  (`crates/archive/hadris-cpio/src/build.rs:338`): a symbolic link or special file with several names
  is written under several inodes and comes back as several nodes. `CpioTreeRoundTrip.LinksSplit` gives a
  symbolic link with the names `a` and `b`. `CpioTree.InoShared` says exactly which names share an inode,
  `CpioTreeRoundTrip.TreeComesBack` which come back as one node, and `CpioTreeRoundTrip.LinksKept` when no
  hard link is lost: when every one is a regular file's.

## Model

| member | source | states |
|---|---|---|
| `CpioRaw.WriteNumber` | crates/archive/hadris-cpio-raw/src/lib.rs:329-352 | the loop leaves exactly the digits of the value in its field, touches nothing else, and reports a value that does not fit |
| `CpioRaw.ParseNumber` | crates/archive/hadris-cpio-raw/src/lib.rs:320-344 | the loop reads a field as the number its digits name, and refuses exactly the fields with a byte outside 0 to 7 in octal, or 0 to 9, A to F and a to f in hex |
| `CpioRaw.ReadsExactly` | crates/archive/hadris-cpio-raw/src/lib.rs:320-344 | a field reads as a number exactly when every byte is a digit of the radix, letters in either case |
| `CpioRaw.AnyCase` | crates/archive/hadris-cpio-raw/src/lib.rs:320-327 | changing the case of any letters of a field leaves what it reads as unchanged |
| `CpioRaw.WrittenDigits` | crates/archive/hadris-cpio-raw/src/lib.rs:329-352 | every place of a written field shows its digit of the number in the radix, letters in upper case |
| `CpioRaw.DigitsRoundTrip` | crates/archive/hadris-cpio-raw/src/lib.rs:320-352 | a number written in a width that holds it is read back, in hex and in octal |
| `CpioRaw.WriteFields` | crates/archive/hadris-cpio-raw/src/lib.rs:192-213 | a header is its magic and all its fields, and is refused exactly when some field does not fit |
| `CpioRaw.NewcRoundTrip` | crates/archive/hadris-cpio-raw/src/lib.rs:96-148 | every newc header of 32-bit fields decodes to the fields it was made from |
| `CpioRaw.NewcAnyCase` | crates/archive/hadris-cpio-raw/src/lib.rs:122-148 | a newc or crc header with any of its digits in the other case parses to the same fields |
| `CpioRaw.OdcRoundTrip` | crates/archive/hadris-cpio-raw/src/lib.rs:192-240 | every odc header whose fields fit decodes to the fields it was made from |
| `CpioRaw.HeaderExactly` | crates/archive/hadris-cpio-raw/src/lib.rs:122-240 | a newc, crc or odc header is refused exactly for another magic or a byte after it that is no digit |
| `CpioRaw.BinaryRoundTrip` | crates/archive/hadris-cpio-raw/src/lib.rs:284-317 | thirteen words in either byte order, with the high word of time and size first, decode to the fields they are made of |
| `CpioHeader.DetectExactly` | crates/archive/hadris-cpio/src/header.rs:80-90 | each magic announces its format and nothing else does, the old binary one in both byte orders |
| `CpioHeader.BinaryDecodes` | crates/archive/hadris-cpio/src/header.rs:93-147 | an old binary header decodes to its fields with devices of 16 bits and no check, in either byte order |
| `CpioHeader.DeviceBijection` | crates/archive/hadris-cpio/src/header.rs:58-68 | the device numbers one field can hold and its 32-bit values correspond one to one |
| `CpioHeader.NamePadding` | crates/archive/hadris-cpio/src/header.rs:150-156 | in newc and crc the data after header, name and padding starts on a multiple of four |
| `CpioHeader.DataPadding` | crates/archive/hadris-cpio/src/header.rs:159-165 | in newc and crc the next header after data and padding starts on a multiple of four |
| `CpioHeader.ChecksumAppend` | crates/archive/hadris-cpio/src/header.rs:168-171 | summing data in pieces gives the sum of the whole |
| `CpioHeader.ChecksumTotal` | crates/archive/hadris-cpio/src/header.rs:168-171 | the sum is that of all bytes modulo 2^32 |
| `CpioHeader.SumsOwed` | crates/archive/hadris-cpio/src/read.rs:452-452 | a sum is owed exactly by the entries of type regular file under the magic 070702 |
| `CpioReader.Source.ReadExact` | crates/archive/hadris-cpio/src/read.rs:271-275 | exact reads over short reads give the next bytes, or run into the end of the stream |
| `CpioReader.Reader.FinishEntry` | crates/archive/hadris-cpio/src/read.rs:358-368 | passing an entry skips its data and padding and fails for just the faults of its data, sum and padding |
| `CpioReader.Reader.Account` | crates/archive/hadris-cpio/src/read.rs:370-379 | counted data extends the running sum; the last byte triggers the one comparison an entry owes |
| `CpioReader.Reader.Verify` | crates/archive/hadris-cpio/src/read.rs:381-386 | a due sum is compared once and then no longer due |
| `CpioReader.Reader.Advance` | crates/archive/hadris-cpio/src/read.rs:388-458 | the state machine moves exactly one step through the meaning of the remaining bytes |
| `CpioReader.Reader.NextEntry` | crates/archive/hadris-cpio/src/read.rs:286-295 | the next entry is the next one the bytes mean, whatever was read of the one before; whether it fails or not, every byte consumed is in offset or in the loss its requests make, and the comparisons made are those the entries owe |
| `CpioReader.Reader.Read` | crates/archive/hadris-cpio/src/read.rs:460-472 | reading data gives the next bytes of the entry and changes nothing of what is still to come |
| `CpioReader.Reader.NextSegment` | crates/archive/hadris-cpio/src/read.rs:308-333 | after a trailer, zero bytes are skipped and the next segment starts at the first other byte |
| `CpioReading.ReadSegment` | crates/archive/hadris-cpio/src/read.rs:335-472 | on every byte string and for every pattern of partial reads and short reads the entries and the stop are those the bytes mean; failed or not, offset counts all bytes consumed but those of a request that ran into the end, and every sum whose data is there is compared once |
| `CpioReading.OffsetLags` | crates/archive/hadris-cpio/src/read.rs:271-275 | offset falls behind the bytes consumed exactly when a segment is cut off strictly inside a request |
| `CpioReading.AllCompared` | crates/archive/hadris-cpio/src/read.rs:370-386 | a segment that does not fail has the sum of each of its summed entries compared exactly once |
| `CpioReading.TornStream` | crates/core/hadris-io/src/api.rs:17-25 | a stream of two bytes of which one is counted |
| `CpioRequests.HeadCutExactly` | crates/archive/hadris-cpio/src/read.rs:388-458 | a header loses bytes exactly when it is truncated between the starts of two requests |
| `CpioReading.ReadArchive` | crates/archive/hadris-cpio/src/read.rs:286-333 | any reading pattern over concatenated archives gives the same list of segments |
| `CpioBuild.Encode` | crates/archive/hadris-cpio/src/build.rs:49-102 | the encoded header, or the limit that stops it, is that of the specification used by planner and writer alike |
| `CpioBuild.HeadLen` | crates/archive/hadris-cpio/src/build.rs:226-232 | the planner predicts the length of header and padded name exactly, and fails exactly when writing would |
| `CpioBuild.EncodesExactly` | crates/archive/hadris-cpio/src/build.rs:49-118 | an entry encodes exactly when its name is 1 to 4095 bytes without NUL and not the trailer's, and its fields fit 32 bits, or six and eleven octal digits in odc |
| `CpioBuild.NodeFieldsExactly` | crates/archive/hadris-cpio/src/build.rs:200-322 | a node's entry has the type bits of its kind, the permissions, owner, links, device and length of the node, and the plain ones where it sets none; only a symbolic link to nothing has no entry |
| `CpioBuild.NearestTime` | crates/archive/hadris-cpio/src/build.rs:184-208 | the time stored is the nearest one to that asked for that the format has room for |
| `CpioBuild.CheckExactly` | crates/archive/hadris-cpio/src/write.rs:189-201 | the check field is the byte sum exactly for regular files in crc archives |
| `CpioBuild.Planner.PlaceEntry` | crates/archive/hadris-cpio/src/build.rs:236-256 | the planned data offset and the advance equal the bytes the entry will take, and each kind of metadata it loses is counted; an entry that does not encode changes nothing |
| `CpioBuild.Planner.Finish` | crates/archive/hadris-cpio/src/build.rs:270-292 | the report warns of just the kinds of metadata that were lost, with how often |
| `CpioBuild.Planner.PlaceTrailer` | crates/archive/hadris-cpio/src/build.rs:258-264 | the plan counts the trailer's bytes |
| `CpioRoundTrip.SegmentRoundTrip` | crates/archive/hadris-cpio/src/write.rs:161-214 | every list of writable entries in newc, crc or odc, followed by a trailer, parses to exactly those entries and that trailer |
| `CpioRoundTrip.DataRoundTrip` | crates/archive/hadris-cpio/src/write.rs:175-214 | each parsed entry shows the path, mode, owner, links, time, device and data that were written |
| `CpioRoundTrip.ConcatenationRoundTrip` | crates/archive/hadris-cpio/src/read.rs:308-333 | any number of archives in any mix of formats, with any runs of zero bytes after each, read back as the list of their segments |
| `CpioRoundTrip.ArchiveReadsBack` | crates/archive/hadris-cpio/src/write.rs:327-344 | one finished archive reads back as one segment with all its data |
| `CpioWriter.Writer.Emit` | crates/archive/hadris-cpio/src/write.rs:175-214 | an entry goes out as head, data and padding, with the sum of its data in crc, in the bytes the plan counted |
| `CpioWriter.Writer.Copy` | crates/archive/hadris-cpio/src/write.rs:216-225 | data is copied whole in bounded chunks |
| `CpioWriter.Writer.Append` | crates/archive/hadris-cpio/src/write.rs:242-254 | appending an entry keeps the output equal to the entries so far and the report truthful |
| `CpioWriter.Writer.AppendHardLinks` | crates/archive/hadris-cpio/src/write.rs:266-299 | a group is written under one inode with the link count of its names; nothing is written unless all of them encode, and the report stays truthful |
| `CpioWriter.Writer.AppendFile` | crates/archive/hadris-cpio/src/write.rs:310-325 | a streamed file reserves an extent of its declared length |
| `CpioWriter.EntryWriter.Write` | crates/archive/hadris-cpio/src/write.rs:367-375 | a streamed write takes no more than is left and the bytes written are the data so far |
| `CpioWriter.EntryWriter.Finish` | crates/archive/hadris-cpio/src/write.rs:352-360 | a streamed file finishes only when all its bytes were written, and is then a whole entry |
| `CpioWriter.Writer.Finish` | crates/archive/hadris-cpio/src/write.rs:327-344 | the finished archive is the entries and the trailer, and the report's size is its length |
| `CpioWriter.DataHolds` | crates/archive/hadris-cpio/src/write.rs:161-214 | the data of entry k lies where the plan puts it |
| `CpioWriter.DataAligned` | crates/archive/hadris-cpio/src/build.rs:226-264 | every newc and crc data start is a multiple of four |
| `CpioWriter.ItemsAligned` | crates/archive/hadris-cpio/src/build.rs:226-264 | every newc and crc header start is a multiple of four |
| `CpioTree.PlanTree` | crates/archive/hadris-cpio/src/build.rs:326-403 | the stack walk plans the tree's names in order with the inode numbers, link counts and data of their groups, reports one extent for every file, and warns of each kind of lost metadata with the number of names that lose it |
| `CpioTree.WriteTree` | crates/archive/hadris-cpio/src/write.rs:140-151 | writing succeeds exactly when every name encodes; the report made before a byte is written gives the size of the archive and what its entries lose |
| `CpioTree.TreeReportTruth` | crates/archive/hadris-cpio/src/write.rs:140-151 | in the written archive every reported extent holds exactly that file's data, aligned in newc and crc |
| `CpioTree.EveryFileReported` | crates/archive/hadris-cpio/src/build.rs:326-403 | every file of the tree has exactly one extent |
| `CpioTree.OneCarrier` | crates/archive/hadris-cpio/src/build.rs:345-403 | in newc and crc exactly the last name of a hard-link group carries data and all its names report that one place; in odc every name carries its own |
| `CpioTree.InoShared` | crates/archive/hadris-cpio/src/build.rs:178-182 | two names have one inode number exactly when they are names of one group |
| `CpioTree.TreeReadsBack` | crates/archive/hadris-cpio/src/write.rs:140-151 | a written tree reads back as one segment holding the planned entries with their data |
| `CpioReadTree.NormalizeSpelled` | crates/archive/hadris-cpio/src/lib.rs:167-196 | a stored name names the path of its components, whatever run of slashes and dot-slashes leads it and whatever runs of separators come between and after them; without components it is the root |
| `NameTree.PutMoves` | crates/archive/hadris-cpio/src/read_tree.rs:17-22 | putting a node at a name changes that name only, and makes the directories on the way |
| `NameTree.PutLinkMoves` | crates/archive/hadris-cpio/src/read_tree.rs:26-32 | linking makes a name share the node of another and changes no other name |
| `NameTree.PutExactly` | crates/core/hadris-fs/src/tree.rs:533-683 | putting a node at a name fails exactly for a device without a number or anything else with one, a dot component, a parent that is no directory, or a directory with children, or the root, that would become something else |
| `NameTree.PutLinkExactly` | crates/archive/hadris-cpio/src/read_tree.rs:26-32 | linking a file to a name, by way of removing what is there, fails exactly when putting a file there would |
| `NameTree.RemovedExactly` | crates/core/hadris-fs/src/tree.rs:590-615 | removing a name takes away the name and all below it and nothing else, and only the root cannot be removed |
| `NameTree.LostExactly` | crates/core/hadris-fs/src/tree.rs:455-465 | a missing name is refused for a dot component, for something other than a directory on the way to it, or as not there, by every operation alike |
| `CpioGroups.Groups.Release` | crates/archive/hadris-cpio/src/read_tree.rs:54-60 | a released name is in no group, and owners stay the inverse of the groups' names |
| `CpioGroups.Groups.Add` | crates/archive/hadris-cpio/src/read_tree.rs:65-100 | after an entry of a group the group's names and no others share one node, that of the last entry with data or of the first; it fails exactly when no file can be put at the name, and linking the group's own names never does |
| `CpioGroups.Groups.Set` | crates/archive/hadris-cpio/src/read_tree.rs:175-179 | an entry outside every group is put at its name and leaves every other name as it was; it fails exactly when the node cannot be put there |
| `CpioGroups.Relinks` | crates/archive/hadris-cpio/src/read_tree.rs:89-94 | relinking a name of the group to its new node never fails |
| `CpioReadTree.GroupNodeStep` | crates/archive/hadris-cpio/src/read_tree.rs:65-100 | the node a group must have is the last one that came with data, or the first when none did, after every further entry |
| `CpioReadTree.BuildingRestored` | crates/archive/hadris-cpio/src/read_tree.rs:146-185 | the invariant kept over every entry sequence gives a tree in which every name holds what its last entry demands and two names share a node exactly when one group has both |
| `CpioReadTree.ReadTree` | crates/archive/hadris-cpio/src/read_tree.rs:146-185 | the tree read from any segment is the one its entries mean; or the error is that of the first entry that has no place after those before it; or, when all have one, the segment's own fault |
| `CpioReadTree.Place` | crates/archive/hadris-cpio/src/read_tree.rs:168-182 | an entry is placed or refused exactly as the history of entries says: a dot component, something other than a directory on the way, or something below a name that is to be no directory |
| `CpioReadTree.OneOutcome` | crates/archive/hadris-cpio/src/read_tree.rs:146-185 | what reading a segment must give is one error or one tree |
| `CpioTreeRoundTrip.TreeComesBack` | crates/archive/hadris-cpio/src/read_tree.rs:134-185 | for every tree that can be written, in newc, crc and odc, reading its archive gives the same names and no more, every node with its data, defaults filled in and time clamped, and one node for two names exactly when they name one regular file |
| `CpioTreeRoundTrip.LinksKept` | crates/archive/hadris-cpio/src/build.rs:338-347 | reading back keeps all hard links of a tree exactly when every one of them is a regular file's |
| `CpioTreeRoundTrip.LinksSplit` | crates/archive/hadris-cpio/src/write.rs:135-136 | a symbolic link with two names gets two inodes and comes back as two nodes |
| `CpioTreeRoundTrip.CopyTree` | crates/archive/hadris-cpio/src/write.rs:140-151 | writing and reading back succeeds exactly for the trees every name of which encodes, and gives that copy |
| `ChainGuard.ChainGuard.Step` | crates/block/hadris-fat-raw/src/chain.rs:28-39 | the counters stay within 32 bits, and the answer is false exactly when the walk is back at the cluster of its mark |
| `ChainGuard.FirstMeet` | crates/block/hadris-fat-raw/src/chain.rs:18-39 | for every walk with a tail and a loop no longer than the counters hold the first false comes at one given move |
| `ChainGuard.FoundAt` | crates/block/hadris-fat-raw/src/chain.rs:18-39 | with fewer than 2^31 clusters that move is 2^k - 1 + n with k least such that 2^k - 1 is at least the tail and 2^k at least the loop |
| `ChainGuard.NeverFound` | crates/block/hadris-fat-raw/src/chain.rs:28-39 | a loop longer than the 32-bit counters is never found |
| `ChainGuard.LateFinding` | crates/block/hadris-fat-raw/src/chain.rs:7-8 | a concrete walk whose loop is first met far later than twice its length after it was entered |
| `ChainGuard.SoonExactly` | crates/block/hadris-fat-raw/src/chain.rs:7-8 | a loop is found within twice its length after it was entered exactly when a power of two no less than it lies past the tail and within its first turn |
| `FatEntry.Encode` | crates/block/hadris-fat-raw/src/entry.rs:126-143 | in a FAT of any length storing an entry changes that entry only: every other entry, the reserved nibble and every other byte stay |
| `FatEntry.PackedReads` | crates/block/hadris-fat-raw/src/entry.rs:109-143 | a stored value reads back, with the reserved nibble and the neighbour's nibble kept |
| `FatEntry.NextExactly` | crates/block/hadris-fat-raw/src/entry.rs:171-182 | every value from 0xFF8, 0xFFF8 or 0x0FFFFFF8 up ends a chain, the bad mark and a number of no data cluster have errors of their own, any other value is the next cluster, and the reserved nibble counts for nothing |
| `FatEntry.ReservedExactly` | crates/block/hadris-fat-raw/src/entry.rs:158-167 | the first two entries are the media byte below set bits and an end mark, whatever the two bits for a clean unmount hold |
| `FatChain.WalkTo` | crates/block/hadris-fat-raw/src/io/fat.rs:333-354 | a walk, resumed from any position an earlier walk reached, gives the wanted position, the end, the broken link or the loop of the chain; what stored chains make of it is `StoredWalk` |
| `FatChain.StoredWalk` | crates/block/hadris-fat-raw/src/io/fat.rs:333-354 | over entries that name distinct clusters one after the other, index i is cluster i; the walk ends at the last for every end mark, and breaks there with its own error for the bad mark and for a number of no data cluster |
| `FatChain.StoreAndWalk` | crates/block/hadris-fat-raw/src/io/fat.rs:333-354 | a chain stored entry by entry into any FAT that holds its clusters walks back as stored |
| `FatChain.ChainShape` | crates/block/hadris-fat-raw/src/entry.rs:171-182 | on every FAT content a chain stops within the number of clusters or is a tail and a loop of no more than that |
| `FatChain.LoopsFound` | crates/block/hadris-fat-raw/src/chain.rs:28-39 | a walk given room for three times the clusters reports a loop exactly when the chain is cyclic |
| `FatChain.IndexSmall` | crates/block/hadris-fat-raw/src/io/mod.rs:349-356 | no position index a walk reaches leaves 32 bits |
| `FatLayout.FatSectors` | crates/block/hadris-fat-raw/src/layout.rs:225-251 | the loop stops by its second pass with a FAT that has an entry for every cluster beside it |
| `FatLayout.AlwaysSized` | crates/block/hadris-fat-raw/src/layout.rs:225-251 | with one or two FATs and allowed sizes the FATs always fit |
| `FatLayout.NotSmallest` | crates/block/hadris-fat-raw/src/layout.rs:222-251 | a concrete volume whose FAT is not the smallest that is enough |
| `FatLayout.SmallestExactly` | crates/block/hadris-fat-raw/src/layout.rs:222-251 | the FAT is the smallest that is enough exactly when it is one sector or FATs of one sector less have fewer entries than the clusters beside them need |
| `FatLayout.Doubling` | crates/block/hadris-fat-raw/src/layout.rs:225-251 | doubling the cluster size never raises the cluster count and drops it at most to half, rounded down |
| `FatLayout.NoTurn` | crates/block/hadris-fat-raw/src/layout.rs:331-343 | a size that is too large is not followed by one that is too small, nor the other way round |
| `FatLayout.Search` | crates/block/hadris-fat-raw/src/layout.rs:327-345 | the search ends, is never stopped by having to turn round, takes the nearest size that fits, and fails exactly when no power-of-two size up to the limit fits |
| `FatLayout.Plan` | crates/block/hadris-fat-raw/src/layout.rs:257-358 | planning answers every request with the layout asked for, the nearest that fits, or the first fault; the kind is the one asked for, or FAT12 below 16 MiB, FAT16 below 512 MiB and FAT32 from there; every layout fills the volume in order with a FAT for every cluster |
| `FatLayout.FitLaid` | crates/block/hadris-fat-raw/src/layout.rs:299-358 | every layout that fits keeps the sizes FAT allows, has a count of its variant, and a FAT size that fits its 16-bit or 32-bit field |
| `FatGranted.GrantedExactly` | crates/block/hadris-fat-raw/src/layout.rs:186-358 | a request is planned as a layout exactly when that layout is granted: variant, reserved area, root directory, FAT and cluster sizes as the rules say in numbers, the cluster size being the one asked for or the nearest to the default of the table at which a variant's cluster count comes out |
| `FatGranted.RefusedFor` | crates/block/hadris-fat-raw/src/layout.rs:257-358 | every refusal has the first reason that applies, from the sector size to a volume too small or too large |
| `FatGranted.WiderFats` | crates/block/hadris-fat-raw/src/layout.rs:267-273 | of two volumes planned without asking for a variant the larger never has the narrower FAT |
| `FatGranted.VariantEdges` | crates/block/hadris-fat-raw/src/layout.rs:267-273 | one sector below 16 MiB the variant granted is FAT12 and from there FAT16; one sector below 512 MiB it is FAT16 and from there FAT32 |
| `FatBoot.PlanRoundTrip` | crates/block/hadris-fat-raw/src/layout.rs:443-512 | for every planned layout and all boot fields the encoded sector is accepted and gives back kind, sizes, FAT start and size, root, data start, serial and highest cluster |
| `FatAccepted.DescribesExactly` | crates/block/hadris-fat-raw/src/boot.rs:217-467 | a sector is accepted with a geometry exactly when its bytes, at the offsets of the format, describe that geometry |
| `FatAccepted.RefusedExactly` | crates/block/hadris-fat-raw/src/boot.rs:217-467 | every other sector is refused for the first fault that applies |
| `FatAccepted.Written` | crates/block/hadris-fat-raw/src/layout.rs:443-512 | an encoded sector also holds what mounting does not read: jump, maker, track geometry, hidden sectors, drive, label, variant name, and the code that tries the next boot device |
| `FatBoot.EntriesFit` | crates/block/hadris-fat-raw/src/boot.rs:255-258 | the planned FAT holds the entry of every cluster, for odd and even FAT12 counts |
| `FatBoot.AcceptedInOrder` | crates/block/hadris-fat-raw/src/boot.rs:365-467 | in every accepted sector reserved area, FAT copies, root and data follow in order without overlap and end within the declared size |
| `FatBoot.AcceptedApart` | crates/block/hadris-fat-raw/src/boot.rs:201-206 | distinct clusters of an accepted volume occupy disjoint ranges of the data region |
| `FatBoot.AcceptedInFat` | crates/block/hadris-fat-raw/src/boot.rs:217-260 | every cluster's entry lies wholly inside each FAT copy |
| `FatBoot.AcceptedShift` | crates/block/hadris-fat-raw/src/boot.rs:116-119 | the cluster size is two to the shift, from 9 through 16, and the active FAT exists |
| `FatBoot.ReservedFatEntries` | crates/block/hadris-fat-raw/src/layout.rs:533-548 | the written entries are those mounting demands, and FAT32's root is a chain of one cluster |
| `FatDate.DateNumber` | crates/block/hadris-fat-raw/src/date.rs:85-97 | the day count of the code numbers the days of the calendar one by one |
| `FatDate.CivilIs` | crates/block/hadris-fat-raw/src/date.rs:86-97 | civil-from-days gives back the date of every day number |
| `FatDate.DaysFromIs` | crates/core/hadris-fs/src/time.rs:73-82 | days-from-civil is the same count |
| `FatDate.EncodedTruly` | crates/block/hadris-fat-raw/src/date.rs:73-109 | for every instant and zone whose local time is in range the packed fields are its true Gregorian date and time of day |
| `FatDate.StampRoundTrip` | crates/block/hadris-fat-raw/src/date.rs:45-109 | decoding in the zone of encoding gives the same instant rounded down to 10 ms |
| `FatDate.ZoneShifts` | crates/block/hadris-fat-raw/src/date.rs:70-78 | an instant is stored in a zone as the UTC instant that many minutes later; a zone of 24 hours or more gives way to the offset recorded with the instant |
| `FatDate.StampRange` | crates/block/hadris-fat-raw/src/date.rs:78-83 | outside the range the first or the last triple is stored |
| `FatDate.EndsTrue` | crates/block/hadris-fat-raw/src/date.rs:15-22 | the two ends are the first and the last instant of 1980 to 2107 |
| `FatDate.StampsOrdered` | crates/block/hadris-fat-raw/src/date.rs:73-109 | the stored triple never decreases as local time grows |
| `FatSlot.LongRoundTrip` | crates/block/hadris-fat-raw/src/slot.rs:58-137 | a fragment reads back from its slot exactly when its sequence byte is no marker |
| `FatSlot.ShortRoundTrip` | crates/block/hadris-fat-raw/src/slot.rs:58-177 | a short entry reads back exactly when its first byte is no marker and its attributes are not a fragment's |
| `FatSlot.ParsedBack` | crates/block/hadris-fat-raw/src/slot.rs:58-177 | every 32 bytes are an end, a free slot, a fragment or a short entry by their first byte and attributes; a short entry is written back as the same bytes, a fragment as the same but for its unused ones |
| `FatLfn.Pack` | crates/block/hadris-fat-raw/src/lfn.rs:47-59 | the three name fields hold the 13 units in order |
| `FatLfn.Unpack` | crates/block/hadris-fat-raw/src/lfn.rs:26-44 | the units come back, with the count before terminator or filler |
| `FatLfn.EncodedEntry` | crates/block/hadris-fat-raw/src/lfn.rs:90-108 | the entry at an index carries its number, its part of the name, the terminator and filler |
| `FatLfn.SequenceExactly` | crates/block/hadris-fat-raw/src/lfn.rs:151-168 | a sequence byte is a number below 64 with bit 6 for the last part of the name, bit 7 counting for nothing |
| `FatLfn.Assembler.Push` | crates/block/hadris-fat-raw/src/lfn.rs:151-180 | shifting the array in place does what feeding a fragment means |
| `FatLfn.NameRoundTrip` | crates/block/hadris-fat-raw/src/lfn.rs:90-194 | the fragments of a name, fed to an assembler in any state, yield exactly the name |
| `FatLfn.WriteAndRead` | crates/block/hadris-fat-raw/src/lfn.rs:90-108 | a name written as slots reads back as its fragments |
| `FatLfn.FinishExactly` | crates/block/hadris-fat-raw/src/lfn.rs:151-194 | a name is given exactly when the fragments since the last reset end in a run from n down to 1 with the matching checksum, and is their concatenation |
| `FatShortName.Hash` | crates/block/hadris-fat-raw/src/short_name.rs:122-128 | the wrapping loop computes the 16-bit hash |
| `FatShortName.HashInjective` | crates/block/hadris-fat-raw/src/short_name.rs:122-128 | for every name different starting values give different hashes |
| `FatShortName.Generate` | crates/block/hadris-fat-raw/src/short_name.rs:139-206 | filling the 11 bytes in place gives the specified name, or none when nothing of it can be stored; where its base and extension come from is `SplitAtDot`, `NoExtension` and `DotsBefore` |
| `FatShortName.SplitAtDot` | crates/block/hadris-fat-raw/src/short_name.rs:140-148 | a name with more than dots and spaces before its last dot is assembled from what is before that dot and what is after |
| `FatShortName.NoExtension` | crates/block/hadris-fat-raw/src/short_name.rs:140-148 | a name without a dot, or with none but a leading one, is all base |
| `FatShortName.DotsBefore` | crates/block/hadris-fat-raw/src/short_name.rs:140-148 | with nothing but dots and spaces before the last dot, what is after it is all base; with nothing after it nothing is stored |
| `FatShortName.Processed` | crates/block/hadris-fat-raw/src/short_name.rs:106-120 | ASCII letters are shown in upper case, digits and punctuation as they are, spaces and dots dropped, everything else as the code page has it or an underscore |
| `FatShortName.ClassicName` | crates/block/hadris-fat-raw/src/short_name.rs:139-206 | a base of 1 to 8 and an extension of 1 to 3 such characters give the upper-case base padded to 8 and the upper-case extension padded to 3 |
| `FatShortName.NumberedName` | crates/block/hadris-fat-raw/src/short_name.rs:164-192 | for suffixes 1 to 4 the base is cut to six and followed by a tilde and the digit |
| `FatShortName.HexShown` | crates/block/hadris-fat-raw/src/short_name.rs:172-181 | the hashed tail shows the hash in hex, most significant digit first |
| `FatShortName.GeneratedShape` | crates/block/hadris-fat-raw/src/short_name.rs:106-206 | every generated name starts with a non-space, has padding only at the end of base and extension, and uses only allowed bytes |
| `FatShortName.HashedNamesDiffer` | crates/block/hadris-fat-raw/src/short_name.rs:139-206 | the names for suffixes 5 to 255 are pairwise different |
| `FatCache.Blocks.Tick` | crates/block/hadris-fat/src/cache.rs:183-194 | the clock stays within 64 bits; when it wraps every live block counts as touched longest ago |
| `FatCache.Blocks.Get` | crates/block/hadris-fat/src/cache.rs:196-207 | a block is given exactly when it is cached, and is then the latest touched |
| `FatCache.Blocks.Insert` | crates/block/hadris-fat/src/cache.rs:209-242 | one slot changes, indexes stay distinct and the bound holds; only a full cache loses a block, the least recently touched one, and after a wrap never one touched since before one that was not |
| `FatCache.Blocks.Invalidate` | crates/block/hadris-fat/src/cache.rs:244-250 | exactly the blocks of the range are freed |
| `FatCache.Blocks.Clear` | crates/block/hadris-fat/src/cache.rs:252-257 | nothing is cached afterwards and the clock starts again |
| `FatCache.MetadataDevice.Read` | crates/block/hadris-fat/src/fatfs.rs:59-77 | over every run a read that answers gives the device's current blocks; it answers exactly when the device can or the block is cached |
| `FatCache.MetadataDevice.Write` | crates/block/hadris-fat/src/fatfs.rs:79-90 | a write, one refused past the end or one that fails and leaves anything in its range included, leaves no cached block that differs from the device |
| `FatChainCache.ChainCache.Best` | crates/block/hadris-fat/src/cache.rs:110-126 | the furthest known position of this chain at or before the wanted index |
| `FatChainCache.ChainCache.Insert` | crates/block/hadris-fat/src/cache.rs:128-155 | a position is kept if it is the earliest of its bucket; without room it takes the place of the one whose turn it is; the bound holds and a chain has one position for each bucket |
| `FatChainCache.WalkFile` | crates/block/hadris-fat/src/fatfs.rs:751-783 | walking by way of remembered positions gives an answer a walk from the start may give, and remembers only positions of that chain |
| `ApfsWalk.WalkTree` | crates/block/hadris-apfs/src/container.rs:675-732 | on every image the walk ends; it succeeds exactly when the reachable nodes form a tree of readable nodes whose levels drop by one, and gives the leaf entries of the recursive left-to-right flattening |
| `ApfsWalk.LinkStored` | crates/block/hadris-apfs/src/container.rs:699-716 | a child link is eight little-endian bytes: a block in physical trees, an object of the map in virtual ones, counted from the root's number in hashed ones, within 64 bits |
| `ApfsWalk.ChildPushed` | crates/block/hadris-apfs/src/container.rs:699-728 | pushing a child keeps what is still to come |
| `ApfsWalk.ThroughSeen` | crates/block/hadris-apfs/src/container.rs:717-719 | a block reached twice spoils the whole walk, and only that |
| `ApfsExtents.ReadExtents` | crates/block/hadris-apfs/src/container.rs:1019-1082 | every byte given is the one the last listed extent with data there maps to: of a clear extent byte (pos - logical) mod block size of block physical + (pos - logical) / block size, of an encrypted one that of this block deciphered with the tweak of its place; or zero where none has data; a fault found before reading leaves the buffer unchanged, and after that reading fails exactly when the device lacks a block of the range |
| `ApfsExtents.FaultExactly` | crates/block/hadris-apfs/src/container.rs:1030-1046 | the fault of an extent found before reading is the first of an end or a tweak past 64 bits, a missing key, and bytes that end after the container's |
| `ApfsExtents.BlockReads` | crates/block/hadris-apfs/src/container.rs:1052-1079 | block n of an extent reads as block physical + n of the device, deciphered with the tweak of crypto + n in sectors of 512 bytes if it is encrypted |
| `ApfsExtents.CutReads` | crates/block/hadris-apfs/src/container.rs:1052-1079 | an extent cut in two at a block boundary, block and tweak of the rest advanced by the blocks cut off, reads the same wherever in a list it stands |
| `ApfsExtents.RangesCompose` | crates/block/hadris-apfs/src/container.rs:1019-1082 | adjacent reads compose to one read |
| `ApfsExtents.OnlyOne` | crates/block/hadris-apfs/src/container.rs:1052-1079 | where one extent has data the byte is the one it maps to: its place in its block, in clear or deciphered |
| `ApfsExtents.InContainer` | crates/block/hadris-apfs/src/container.rs:1040-1045 | every block read after the checks lies inside the container |
| `ApfsIndex.Index.DamageStreams` | crates/block/hadris-apfs/src/fs.rs:183-192 | exactly the nodes of the streams become damaged |
| `ApfsIndex.Index.Parse` | crates/block/hadris-apfs/src/fs.rs:91-181 | the index holds just what the records say, with every stream sorted; damaged are exactly the nodes with a malformed or repeated record and those whose stream is not whole; parsing is refused for just the first bad key or passed limit |
| `ApfsIndex.WholeExactly` | crates/block/hadris-apfs/src/fs.rs:162-178 | the checks of parsing find fault with a stream exactly when its extents are not all parsed, in range, sorted and disjoint |
| `ApfsIndex.Index.Validate` | crates/block/hadris-apfs/src/fs.rs:194-234 | exactly the nodes with a disagreeing directory entry or an extent outside the container become damaged |
| `ApfsIndex.EntryAgrees` | crates/block/hadris-apfs/src/fs.rs:196-218 | a directory entry agrees with its inode exactly when there is one and, unless the mode names no type, the entry records no type or that one, and a directory's parent is where the entry is |
| `ApfsIndex.InsideExactly` | crates/block/hadris-apfs/src/fs.rs:221-232 | an extent that is no hole lies inside exactly when its bytes end no later than the container's |
| `ApfsIndex.Mount` | crates/block/hadris-apfs/src/fs.rs:404-405 | undamaged are exactly the nodes whose records and directory entries agree and whose extents are whole, sorted, disjoint and inside the container |
| `ApfsIndex.OrderFree` | crates/block/hadris-apfs/src/container.rs:1052-1079 | for such extents the bytes do not depend on the order they are listed in |
| `ApfsIndex.SoundPasses` | crates/block/hadris-apfs/src/container.rs:1030-1046 | such extents pass every check before reading exactly when the encrypted ones among them are read for the volume, with its key, and have tweaks that fit 64 bits |
| `ApfsFs.SoundEnds` | crates/block/hadris-apfs/src/types/filesystem.rs:308-320 | a stream that can be read ends where its last extent does, without the end being capped |
| `ApfsFs.UndamagedSound` | crates/block/hadris-apfs/src/fs.rs:256-258 | a mounted index lists for an undamaged node all extents of its stream, sorted, disjoint and inside the container |
| `ApfsFs.SoundFault` | crates/block/hadris-apfs/src/container.rs:1030-1046 | for an undamaged node the only fault left to find before reading, its key being there, is a tweak past 64 bits |
| `ApfsFs.SoundByte` | crates/block/hadris-apfs/src/container.rs:1047-1083 | each of its bytes is the one its only extent there maps to, by block, place in the block and tweak written out, or zero where none has data |
| `ApfsFs.ReadFile` | crates/block/hadris-apfs/src/fs.rs:643-656 | reading a node of a mounted volume gives those bytes up to the file's size; every failure is the first that applies of a missing key, damage, an unknown node, a wrong type, a tweak past 64 bits and a block the device lacks, and all but the last leave the buffer unchanged |
| `ApfsFs.KindExactly` | crates/block/hadris-apfs/src/fs.rs:17-28 | only a mode of type 8 without the compressed flag can be read; directories, links, other types and no type have errors of their own |
| `ApfsFs.SizeExactly` | crates/block/hadris-apfs/src/types/filesystem.rs:306-321 | a file has the size of its data stream, else its size before compression, else it ends where its last extent does |
| `ApfsDer.SplitEncoding` | crates/block/hadris-apfs/src/crypto.rs:139-175 | what is accepted is the one encoding of its tag and value, followed by the rest |
| `ApfsDer.EncodingSplits` | crates/block/hadris-apfs/src/crypto.rs:139-175 | every encoding of a value below 2^32 bytes parses back, whatever follows |
| `ApfsDer.AcceptedExactly` | crates/block/hadris-apfs/src/crypto.rs:139-175 | a string is accepted exactly when it starts with an encoding for the tag |
| `ApfsDer.IntegerBijection` | crates/block/hadris-apfs/src/crypto.rs:176-193 | accepted content octets and 64-bit values correspond one to one |
| `ApfsDer.Der.Field` | crates/block/hadris-apfs/src/crypto.rs:139-175 | the cursor moves past exactly the field, and stays where it was on an error |
| `ApfsDer.Der.Integer` | crates/block/hadris-apfs/src/crypto.rs:176-193 | the value read is the one whose canonical encoding was there |
| `ApfsDer.Der.End` | crates/block/hadris-apfs/src/crypto.rs:194-200 | everything was read |

## Left out

- Async and sync duplication, tracing, feature gates and the texts and codes of errors.
- Overflow of 64-bit stream offsets, and entry data too large for memory.
- Errors of content while it is read.
- `hadris_fs::Tree`: modelled for reading as names mapped to numbered nodes whose numbers are never reused, and for writing as places with their children; the permission bits of a node are assumed not to overlap its type bits.
- `DateTime` bounds: modification times of cpio entries are taken as representable, and FAT times as inside the supported years.
- Unicode: names are byte or code-unit sequences, and the code page of short names is an arbitrary function.
- `case_bits`, `display`, `is_valid_long_name`, the checksum of short names, FSInfo sectors and the setters of short entries: each is settled by reading its body.
- The free-cluster scan, allocation and mirroring of the FAT driver, and exFAT.
- The checkpoint ring, object-map lookup and space manager of APFS, and object checksums.
- AES-XTS, key derivation, key unwrapping and the keybag: decryption of extents is an arbitrary length-preserving function.
- ApfsWalk.WalkTree: which of several faults an image with more than one is reported for is not specified.
- FatCache.Blocks.Insert: which of several equally old blocks goes after a wrap is not specified.
- Symbolic-link targets are counted, not kept, and the names of directory entries are left out of the index.
- Nothing writes the old binary cpio format: its round trip is one of the header's words, and no archive of it is written and read back.
- ISO, UDF, NTFS, partitions, examples, benches, scripts and the website.
