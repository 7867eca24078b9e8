# Verification of the data logger's storage and serial link

A Dafny model of the four hardest parts of the firmware, with proofs. Every function that the source implements as
steps on mutable state is a method on a class with the same fields, proved against a specification on values; what
matters about the specification is proved as lemmas.

| files | part of the firmware |
|---|---|
| `Volume`, `Window`, `FatTable`, `ClusterChain`, `FreeSpace`, `Mount` | FatFs: the medium, the sector window, the FAT, the allocator, counting, mounting |
| `FileSpec`, `FileSteps`, `FileIO` | FatFs: reading, writing, seeking and truncating a file |
| `Directory`, `DirEntries`, `DirSearch`, `DirUpdate`, `Lfn`, `Pattern` | FatFs: directory tables, long names, wildcards |
| `Fifo`, `FrameParser`, `Queue`, `SendSpec`, `SendRuns`, `BufferQueues`, `Transceiver` | the serial link: byte queue, frames, linked queues, retransmission |
| `RingFile` | the ring file of the FTP retry table |
| `Crc` | CRC-8 and CRC-16/Modbus |
| `Division` | products, quotients and remainders |

How to read it:

- `Fatfs` is the filesystem object together with the medium, a sequence of sectors whose reads and writes may fail.
  `reliable` says that they do not, `mirrorReliable` that they do not on the second FAT. A failed write leaves
  arbitrary contents. `L()` is the logical disk: the window where it stands, the medium elsewhere, and blank in the
  second FAT, which no client reads. `Fat(g, L())` is the table as a sequence of entries.
- `File.C()` is the content of an open file, and `File.Valid()` its invariant, which fixes the cursor: the current
  cluster is that of the last byte before the file pointer, and off a sector boundary `sect` is the sector of the
  pointer. `File.Since` says that the chain of the file has at most grown, and that nothing else has changed.
- `k & (csize - 1)` and `k / csize` are `Rem` and `Quot`, which count down by `csize`; `MaskIsRemainder`,
  `RemIsRemainder` and `QuotIsDivision` say that they are that.
- `Buffers.P()` says in which place every buffer of the sender is, and what it holds; what the steps of the sender do is
  defined on such values in `SendSpec`. `Trans.S()` adds the flags of the sender. Every method of `Trans` says which
  event it is for the state machine of `SendRuns`, where what holds over whole runs is proved.
- The CRC-16 is that of section 2.5.1.2 of MODBUS over Serial Line V1.02: polynomial 0xA001, lowest bit first, starting
  from 0xFFFF. The CRC-8 has polynomial 0x31, highest bit first. The sums on bits behind them are `Plus`, `Half` and
  `Odd`.
- Names such as `Open`, `Look`, `Own`, `At` and `Sought` are predicates that hold of everything. They keep a definition away from
  proofs that do not need it.

`dafny verify dfyconfig.toml` checks all of it.

## Findings

Where the code does not do what its documentation or its callers expect, the model follows the code, a lemma shows an
input, and another one says exactly when it does.

- `f_getfree` counts the two reserved entries of a FAT16 or FAT32 table if they are zero (`FreeSpace.ReservedCounted`);
  the count is right exactly if neither is (`FreeSpace.ScanCount`).
- A scan of `f_getfree` that breaks off leaves its partial count recorded as the number of free clusters, and the
  allocator takes that as exact. A FAT12 scan breaks off at the first entry 1, without any failure of the medium
  (`FreeSpace.BrokenOffRecorded`), a FAT16 or FAT32 scan at a sector that cannot be read (`FreeSpace.FailureRecorded`).
  The count is right exactly if no cluster behind the place where it broke off is free (`FreeSpace.PartialCount`).
- Mounting sums sector counts in 32 bits, and accepts volumes for which a sum wraps (`Mount.WrappedVolume`). FATs, root
  directory and clusters are addressed where the parameter block has them exactly if the sectors from the boot sector
  to the end of the last cluster have numbers of 32 bits (`Mount.InPlaceExactly`). What is proved of mounted volumes
  assumes slightly more, `Sound`: that the volume ends below sector 0xFFFFFFFF.
- A long name of 255 units can be registered but is never found again (`DirUpdate.LongFoundExactly`); `pick_lfn`
  rejects its last piece from 254 units on (`Lfn.PickableExactly`).
- A broadcast frame may claim 241 to 255 bytes of data; the parser delivers it (`FrameParser.LongBroadcast`), and its
  checksum is then computed over bytes behind the buffer, which decide whether it passes
  (`FrameParser.DecidedBehind`). Judging a frame stays inside the buffer exactly if the frame is for another node, is
  no broadcast, or has at most 240 bytes (`FrameParser.Receiver.OnRecvFrame`).
- Rewinding the byte queue puts nothing back if exactly as many bytes as it has places were taken out
  (`Fifo.Fifo.RewindHead`), and `FIFO_IsEnablePush` allows a push over protected bytes exactly if the queue is empty
  and all of its places are protected (`Fifo.Fifo.EnablePushExactly`). `Fifo.FullTurn` brings a queue of one place
  there. The frame parser protects 7 of 512 bytes and does not get there.
- When a frame is queued to be sent again after its timer has run out, its link is cleared before the walk over the
  waiting frames follows it (`BufferQueues.Buffers.SendAgain`), so that the timers of the frames behind it miss that
  tick (`BufferQueues.Buffers.CheckTimeOut`, `SendSpec.PassMeaning`).
- A frame that the layer below refuses is neither sent again nor freed (`Transceiver.Trans.RunSendFrame`).
- The size of a queue of buffers is counted in a byte: with the 256th buffer the queue looks empty
  (`Queue.Queue.Append`).
- The ring file reduces its push index only where it is used. When the index wraps around at 65536, the next place is
  right exactly if the number of places divides 65536 (`RingFile.PushKeepsAligned`), which 5000, the size of the retry
  table, does not (`RingFile.RetryTable`). From then on a pushed record is not the one that comes out
  (`RingFile.PushMisplaced`).
- A ring file is created with records of 259 bytes whatever record size is asked for, so that opening it again keeps
  it exactly for that size (`RingFile.ReopenKeeps`). A file of the right length is taken with any header.

## Model

| member | source | states |
|---|---|---|
| Window.SyncWindow | middleware/filesystem/fatfs/ff.c:1033-1051 | Writing the window back changes nothing on the logical disk; after a failure the window is still dirty, and the invariant holds that every clean first-FAT sector equals its copy |
| Window.MoveWindow | middleware/filesystem/fatfs/ff.c:1055-1076 | The logical disk is unchanged, the window shows the sector asked for, and after an error it is unusable or still holds the unwritten data |
| Window.WrittenBack | middleware/filesystem/fatfs/ff.c:1040-1048 | Writing the window to its sector and to the copy in the second FAT, of which the latter may fail, keeps the volume invariant and the logical disk |
| FatTable.GetFat | middleware/filesystem/fatfs/ff.c:1140-1207 | Returns the entry of the logical table, 1 outside of it, the error value only if the medium has failed; changes nothing |
| FatTable.PutFat | middleware/filesystem/fatfs/ff.c:1217-1266 | Sets one entry, masked to its width, keeps all other entries and all sectors outside the FATs; also when the entry straddles two sectors |
| FatTable.ReadOverWrite | middleware/filesystem/fatfs/ff.c:1217-1266 | On the bytes of a FAT12, FAT16 or FAT32 table: the stored entry reads back masked, every other entry and all reserved bits of FAT32 are as before |
| FatTable.HalfWritten | middleware/filesystem/fatfs/ff.c:1229-1241 | If only the first byte of a FAT12 entry has been stored, no other entry is damaged |
| FatTable.EndMarkEndsChain | middleware/filesystem/fatfs/ff.c:73-75 | The end mark, masked to the entry width, is beyond every table that mounting accepts |
| FatTable.WordBytes | middleware/filesystem/fatfs/ff.c:571-577 | A word is stored with its low byte first |
| FatTable.DwordBytes | middleware/filesystem/fatfs/ff.c:580-589 | And a double word in the order of the weight of its bytes |
| FatTable.Packed12 | middleware/filesystem/fatfs/ff.c:1157-1164 | Three bytes of a FAT12 table are two entries, the low one first |
| FatTable.Packed16 | middleware/filesystem/fatfs/ff.c:1166-1169 | Two bytes of a FAT16 table are an entry |
| FatTable.Packed32 | middleware/filesystem/fatfs/ff.c:1171-1174 | Four bytes of a FAT32 table are an entry, without the top four bits |
| ClusterChain.ScanMeaning | middleware/filesystem/fatfs/ff.c:1563-1577 | The search that wraps round finds a free cluster, or everything it examines is in use, or it has met a malformed entry |
| ClusterChain.PickMeaning | middleware/filesystem/fatfs/ff.c:1552-1577 | The allocator gives up only if no cluster is free, and otherwise takes a free one unless it meets an entry 1 |
| ClusterChain.CreateChain | middleware/filesystem/fatfs/ff.c:1502-1593 | Which value it returns in every case, that exactly the new link and end mark are stored, and that an accurate free count stays accurate |
| ClusterChain.StretchKeepsChains | middleware/filesystem/fatfs/ff.c:1578-1581 | Linking a free cluster to the end of one chain keeps a family of disjoint chains, that one longer by it |
| ClusterChain.NewChainKeepsChains | middleware/filesystem/fatfs/ff.c:1578-1581 | A new one-cluster chain joins the family |
| ClusterChain.LinkKeepsCount | middleware/filesystem/fatfs/ff.c:1584-1587 | Counting one down keeps the recorded number of free clusters equal to the number of zero entries |
| ClusterChain.CreateAmong | middleware/filesystem/fatfs/ff.c:1502-1593 | Before and after the call the chains of the volume are acyclic and disjoint; the new cluster was free; 0 is returned only if none is, or none is recorded to be; an accurate free count stays accurate |
| ClusterChain.RemoveChain | middleware/filesystem/fatfs/ff.c:1407-1493 | On every table, cyclic and cross-linked ones included, it ends with the table the walk leaves, and an accurate free count stays accurate |
| ClusterChain.WalkFreesSuffix | middleware/filesystem/fatfs/ff.c:1431-1464 | On a proper chain the walk frees exactly the clusters from where it starts |
| ClusterChain.RemoveKeepsChains | middleware/filesystem/fatfs/ff.c:1421-1464 | Cutting a chain frees exactly its rest, keeps its start a chain, and keeps all other chains |
| ClusterChain.RemoveAmong | middleware/filesystem/fatfs/ff.c:1407-1493 | The same of the call: the family of chains afterwards, the entry of every cluster but the new last one, and an accurate free count |
| FreeSpace.GetFree | middleware/filesystem/fatfs/ff.c:4608-4688 | What it returns and records, after errors too; it equals the number of zero entries if the reserved entries are not zero; a FAT16 or FAT32 scan breaks off at a sector boundary, a FAT12 scan with an internal error at its first entry 1 |
| FreeSpace.ScanCount | middleware/filesystem/fatfs/ff.c:4662-4681 | The scan counts the free clusters if and only if neither reserved entry is zero |
| FreeSpace.PartialCount | middleware/filesystem/fatfs/ff.c:4634-4685 | A count that was broken off is accurate if and only if nothing behind is free |
| FreeSpace.ReservedCounted | middleware/filesystem/fatfs/ff.c:4662-4681 | A FAT16 table of mountable length without free clusters for which two are counted |
| FreeSpace.BrokenOffRecorded | middleware/filesystem/fatfs/ff.c:4630-4685 | A FAT12 table with an entry 1, for which a wrong count is recorded though the medium works |
| FreeSpace.FailureRecorded | middleware/filesystem/fatfs/ff.c:4662-4685 | A FAT16 table for which a wrong count is recorded when its second sector cannot be read |
| Mount.InitVolume | middleware/filesystem/fatfs/ff.c:3328-3377 | The checks and computations in their order yield the layout that `Layout` defines, in 32-bit arithmetic |
| Mount.BootSectorRead | middleware/filesystem/fatfs/ff.c:84-108 | Of a boot sector composed of its fields, byte by byte, every field of the parameter block is read |
| Mount.TypeExactly | middleware/filesystem/fatfs/ff.c:73-75 | The number of clusters alone decides between FAT12, FAT16 and FAT32, at 4085 and 65525 |
| Volume.FatBytesHold | middleware/filesystem/fatfs/ff.c:3370-3375 | The bytes that a FAT must have are just enough for its entries |
| Mount.PowerOfTwo | middleware/filesystem/fatfs/ff.c:3339 | The test for the cluster size lets exactly the powers of two pass |
| Mount.AcceptedIsSound | middleware/filesystem/fatfs/ff.c:3328-3377 | An accepted volume whose sums do not wrap has the layout that its parameter block describes, and that is sound |
| Mount.AcceptedExactly | middleware/filesystem/fatfs/ff.c:3328-3377 | It is accepted if and only if its parameter block describes a sound layout |
| Mount.InPlaceExactly | middleware/filesystem/fatfs/ff.c:3332-3361 | An accepted volume is addressed as its parameter block says, FATs, root directory and every sector of every cluster, if and only if its last cluster ends within 32-bit sector numbers |
| Mount.PlacesApart | middleware/filesystem/fatfs/ff.c:1123-1131 | Sectors addressed that way are apart: those of different clusters, of FATs, root directory and clusters |
| Mount.WrappedVolume | middleware/filesystem/fatfs/ff.c:3332-3361 | A volume that is accepted although it is not addressed rightly and its layout is unsound |
| Mount.ClusterPlace | middleware/filesystem/fatfs/ff.c:1123-1131 | The FAT entry of every cluster lies in the first FAT, its sectors in the volume, after FATs and root directory, apart from those of other clusters |
| FileSpec.MaskIsRemainder | middleware/filesystem/fatfs/ff.c:3736 | Masking with `csize - 1` is the remainder for all accepted cluster sizes |
| Division.QuotIsDivision | middleware/filesystem/fatfs/ff.c:4319-4320 | The cluster of a byte, found by dividing by the cluster size in bytes, is the one that the specification counts |
| FileIO.File.Read | middleware/filesystem/fatfs/ff.c:3711-3801 | Returns exactly the bytes of the content from the pointer to its end or the count, and changes no content, though transfers bypass a dirty buffer; errors are sticky |
| FileIO.File.Write | middleware/filesystem/fatfs/ff.c:3811-3923 | The content changes exactly in the bytes reported as written. These are all, unless the file reaches 4 GiB, or its chain ends at the pointer and no cluster is free to stretch it |
| FileIO.File.Seek | middleware/filesystem/fatfs/ff.c:4303-4377 | The pointer is where it should be, old content is kept, a file open for writing grows as far as there is room; the cursor invariant holds whichever way it went; the file is marked as modified exactly if its size has changed |
| FileIO.File.Truncate | middleware/filesystem/fatfs/ff.c:4697-4738 | The content is the old one up to the pointer, the chain the prefix that covers it, all later clusters are free, and no other entry has changed; the file is marked as modified exactly if it was longer |
| FileSteps.DirectWritten | middleware/filesystem/fatfs/ff.c:3871-3891 | A transfer past the clean buffer writes its bytes into the content and nothing else, the buffer following if it holds one of the sectors |
| FileSteps.CutPlan | middleware/filesystem/fatfs/ff.c:4712-4723 | The cursor leads to the cluster after which the chain is to be cut |
| FileSteps.Truncated | middleware/filesystem/fatfs/ff.c:4705-4733 | The table cut there and the buffer written back make up the truncated file |
| Directory.DirClear | middleware/filesystem/fatfs/ff.c:1635-1664 | All sectors of the cluster are blank, whatever size of buffer could be allocated, and nothing else has changed, after a failed write either |
| Directory.Dir.Sdi | middleware/filesystem/fatfs/ff.c:1674-1713 | Stands at the entry asked for, in its cluster and sector; fails only at a bad offset or beyond the table |
| Directory.Dir.Next | middleware/filesystem/fatfs/ff.c:1722-1773 | From where `Sdi` stands at an entry, stands where `Sdi` would at the next; a stretched table has one blank cluster more; why it fails |
| DirEntries.Alloc | middleware/filesystem/fatfs/ff.c:1783-1814 | Ends at the first row of unused entries that is long enough; the table has only grown by blank clusters that were free; it is denied only if there is no such row and no room |
| DirSearch.Judge | middleware/filesystem/fatfs/ff.c:2442-2463 | One step of the search: the count-down of ordinals and the checksum know exactly the pieces of the name passed |
| DirSearch.Find | middleware/filesystem/fatfs/ff.c:2403-2474 | Finds the first entry that is the object: all pieces of its long name before it, or its short name; and with it the entry at which its long name starts, or that it has none. If it finds nothing there is no such entry before the first that starts with zero, and none at all if no used entry follows one |
| DirSearch.StopsRightly | middleware/filesystem/fatfs/ff.c:2443 | If no used entry follows one that starts with zero, an object that is not found before is not there |
| DirSearch.KindByBits | middleware/filesystem/fatfs/ff.c:2445-2450 | Which entries are pieces of a long name and which are objects, by the bits of the attribute byte |
| DirSearch.Checksum | middleware/filesystem/fatfs/ff.c:2031-2042 | The loop computes the checksum that the search and the long entries are proved with |
| DirSearch.SumOfReadme | middleware/filesystem/fatfs/ff.c:2031-2042 | The checksum of `README  TXT` is 115 |
| DirUpdate.EntryPoked | middleware/filesystem/fatfs/ff.c:2565-2574 | Changing one entry in the window changes that entry of the table and nothing else on the disk |
| DirUpdate.FillingZeroEnds | middleware/filesystem/fatfs/ff.c:2549-2557 | While a row is being filled from its start, no used entry ever follows one that starts with zero |
| DirUpdate.SfnBytes | middleware/filesystem/fatfs/ff.c:2566-2574 | The entry of a new object, byte by byte |
| DirUpdate.Register | middleware/filesystem/fatfs/ff.c:2484-2580 | The entries of the object are in the first row long enough, a numbered name is unused and no lower number is free, zero entries still end the table, nothing but the table has changed, and an accurate free count stays accurate. It is denied only if 99 numbered names are in use, or there is no row long enough and no room for one |
| DirUpdate.LongFoundExactly | middleware/filesystem/fatfs/ff.c:2448-2461 | A registered long name is found if and only if the name looked for equals it up to case, and it has at most 254 units |
| DirUpdate.RegisteredIsFound | middleware/filesystem/fatfs/ff.c:2484-2580 | A registered object is found where it is exactly under its long or its short name |
| DirUpdate.RegisterKeepsOthers | middleware/filesystem/fatfs/ff.c:2484-2580 | Every other object is found as before, and none is added |
| DirUpdate.Number | middleware/filesystem/fatfs/ff.c:2530-2541 | It tries `gen(1)`, `gen(2)` and so on, and takes the first that no short entry has; it is denied only if 99 of them are in use; it does not give up otherwise unless a cluster or the medium is bad |
| DirUpdate.Remove | middleware/filesystem/fatfs/ff.c:2590-2625 | Exactly the entries of the object are marked, or a first part of them after an error, and nothing else has changed |
| DirUpdate.RemoveKeepsOthers | middleware/filesystem/fatfs/ff.c:2590-2625 | The object is found no more, every other one as before |
| DirUpdate.RegisteredIsRemoved | middleware/filesystem/fatfs/ff.c:2590-2625 | An object that has been registered, found and removed leaves none of its entries behind: those of its long name are all marked, however it was found, and their room can be used again |
| Lfn.PutLfn | middleware/filesystem/fatfs/ff.c:1936-1961 | The entry is the piece of the name: its characters, a terminator, padding, ordinal and checksum |
| Lfn.CmpLfn | middleware/filesystem/fatfs/ff.c:1862-1890 | Accepts an entry if and only if it agrees with its part of the name in the buffer |
| Lfn.PickLfn | middleware/filesystem/fatfs/ff.c:1898-1927 | Copies the characters of a proper entry to their place in the buffer, and fails on exactly the others |
| Lfn.OffsetTable | middleware/filesystem/fatfs/ff.c:470 | The offsets of the 13 characters are those of the table |
| Lfn.LlefIsBit | middleware/filesystem/fatfs/ff.c:1920-1923 | The mark of the entry that comes first is bit 6 |
| Lfn.PickableExactly | middleware/filesystem/fatfs/ff.c:1898-1927 | Which pieces of which names `pick_lfn` accepts: all of them up to 253 units |
| Lfn.RoundTrip | middleware/filesystem/fatfs/ff.c:1898-1961 | Names of up to 253 units are rebuilt from their pieces |
| Lfn.CountdownExact | middleware/filesystem/fatfs/ff.c:1862-1890 | All pieces are accepted if and only if the names are equal up to case and have at most 254 units |
| Pattern.PatternMatching | middleware/filesystem/fatfs/ff.c:2771-2808 | Returns 1 if and only if the name matches under the declarative meaning of `?` and `*`; it terminates and its early stop loses no match |
| Pattern.UpperLetters | middleware/filesystem/fatfs/ff.c:2753-2754 | Which characters are changed to upper case, and to which |
| Crc.Crc16.Init | library/crc16.c:99-124 | The table holds the bit-by-bit remainders of all bytes |
| Crc.Crc16.Update | library/crc16.c:82-92 | One byte by table is one byte bit by bit, the table being filled first if need be |
| Crc.Crc16.Modbus | library/crc16.c:55-79 | The checksum by table is the bit-by-bit one of the whole string |
| Crc.ModbusExample | library/crc16.c:55-79 | The message 02 07, the example of that standard, has checksum 0x1241 |
| Crc.TableStep | library/crc16.c:66-73 | Eight shifts of a remainder are one look at the table for its low byte and a shift of its high byte |
| Crc.Residue | library/crc16.c:55-79 | A string followed by its checksum, low byte first, has checksum 0 |
| Crc.BurstDetected | library/crc16.c:55-79 | Strings that differ only within two adjacent bytes have different checksums |
| Crc.EntryIs | library/crc8.c:30-47 | The 256 constants of the table are the bit-by-bit remainders |
| Crc.CrcByTable | library/crc8.c:57-71 | The checksum by table is the bit-by-bit one |
| Crc.ByteDetected | library/crc8.c:57-71 | Strings that differ in one byte have different checksums |
| Fifo.Fifo.Push | library/fifo.c:47-61 | Appends a byte if there is room, and whether protected bytes are still intact |
| Fifo.Fifo.Pop | library/fifo.c:69-89 | Takes the oldest byte |
| Fifo.Fifo.RewindHead | library/fifo.c:123-140 | Puts the bytes taken out since protection was enabled back in front, or nothing if they filled the queue |
| Fifo.Fifo.EnablePushExactly | library/fifo.c:149-158 | When a push is allowed under protection |
| Fifo.FullTurn | library/fifo.c:123-158 | A queue whose place is protected, in which a push is allowed and rewinding puts nothing back |
| FrameParser.BuildFrame | application/serialcomm/TransL2S.c:506-538 | The frame has the given fields, right checksums and the data, if that is at most 240 bytes long |
| FrameParser.Receiver.ProcessRecvData | application/serialcomm/TransL2S.c:638-767 | Runs the stepwise specification up to the next frame, which is then in the buffer, and takes at least one byte for it, rewinding included |
| FrameParser.ParseMore | application/serialcomm/TransL2S.c:658-766 | What has been parsed does not depend on bytes that arrive later |
| FrameParser.Chunking | application/serialcomm/TransL2S.c:658-766 | The frames do not depend on how the stream is cut into arrivals |
| FrameParser.FewLeft | application/serialcomm/TransL2S.c:671-674 | Between arrivals fewer than eight bytes are left over |
| FrameParser.RoundTrip | application/serialcomm/TransL2S.c:506-538 | Built frames with quiet noise between them are parsed back to exactly these frames |
| FrameParser.Receiver.Feed | application/serialcomm/TransL2S.c:638-767 | The frames got from a queue fed with bytes are those of the specification |
| FrameParser.Receiver.OnRecvFrame | application/serialcomm/TransL2S.c:777-899 | Which frames are delivered, which are answered and how (a broadcast never), which acknowledge one that was sent, that a delivered one is not delivered again, and when judging stays inside the buffer; `AnswerMeans` says which control bytes that are |
| FrameParser.AnswerMeans | application/serialcomm/TransL2S.c:860-887 | Which control bytes acknowledge a frame that was sent, which reject one, and which ask for an acknowledgement |
| FrameParser.BuiltIsFine | application/serialcomm/TransL2S.c:777-836 | Across both ends: a frame that was built and received passes at the node it is for, at every node if it is a broadcast, and at no other |
| FrameParser.LongBroadcast | application/serialcomm/TransL2S.c:803-819 | A broadcast of 241 bytes that the parser delivers |
| FrameParser.DecidedBehind | application/serialcomm/TransL2S.c:819 | Whether it passes depends on a byte behind the buffer |
| FrameParser.DamageShows | application/serialcomm/TransL2S.c:819 | Damage to one byte of the data is noticed |
| FrameParser.HeaderDamageShows | application/serialcomm/TransL2S.c:695-708 | Damage to one byte of the header is noticed |
| Queue.Queue.Append | library/queue.c:67-97 | The buffer is the last one of the linked list; the 256th makes it look empty |
| Queue.Queue.Remove | library/queue.c:112-181 | Takes out the first buffer that is looked for, and no other |
| Queue.Queue.Flush | library/queue.c:220-241 | Every buffer is freed once, in order |
| BufferQueues.Buffers.Keep | application/serialcomm/Tranceiver.c:492-520 | The buffer in flight joins the sent queue; no buffer is linked in two places |
| BufferQueues.Buffers.Acknowledge | application/serialcomm/Tranceiver.c:112-125 | The first buffer with the number leaves the sent queue and is freed; no buffer is linked in two places |
| BufferQueues.Buffers.Requeue | application/serialcomm/Tranceiver.c:127-148 | It goes to the end of the data queue with its timer reset; no buffer is linked in two places |
| BufferQueues.Buffers.CheckTimeOut | application/serialcomm/Tranceiver.c:373-421 | Walking along the links while buffers change queues does what `Pass` says |
| Transceiver.Trans.Send | application/serialcomm/Tranceiver.c:244-316 | A new buffer goes to the end of the queue that its control byte asks for, with the sequence number that its kind asks for; nothing changes without memory; every buffer is in exactly one place |
| Transceiver.UrgentAreReplies | application/serialcomm/Tranceiver.c:299-308 | The frames that go before the others are exactly those that the other end takes as replies |
| Transceiver.Trans.RecvTask | application/serialcomm/Tranceiver.c:101-168 | What each action of the receiver does to the buffers |
| Transceiver.AckComesBack | application/serialcomm/Tranceiver.c:105-160 | Across both ends: the command with which a good frame is answered leads, as a frame, to the acknowledgement of the frame with just that number at the sender |
| Transceiver.NackComesBack | application/serialcomm/Tranceiver.c:105-160 | And the one with which a damaged frame is answered makes the sender send it again |
| Transceiver.Trans.RunSendFrame | application/serialcomm/TransL2S.c:560-629 | The frame in flight is given to the layer below once, and afterwards waits for its acknowledgement or is freed; if it is refused it is in no place any more |
| Transceiver.Trans.L1TimeOut | application/serialcomm/TransL2S.c:123-162 | A frame that was not sent in time is freed, once |
| SendSpec.PassMeaning | application/serialcomm/Tranceiver.c:373-421 | Exactly which frames are given up, sent again and counted down in a tick |
| SendSpec.GivenUpAfterThree | application/serialcomm/Tranceiver.c:391-414 | Without negative acknowledgements a frame is given up after exactly three sends |
| SendSpec.TickKeeps | application/serialcomm/Tranceiver.c:373-421 | A tick leaves every buffer in exactly one place, the timers in order and the counts right |
| SendSpec.RunKeeps | application/serialcomm/TransL2S.c:560-629 | So does a step of the frame in flight, whether it is sent, refused, kept or freed |
| SendSpec.SentAtMostThrice | application/serialcomm/Tranceiver.c:178-222 | And no frame is sent more than three times |
| Transceiver.Trans.SendTask | application/serialcomm/Tranceiver.c:178-222 | A run of the task is the step `Task` of the state machine: a tick if one is due, which is then no longer due; a launch, commands first; and a step of the frame in flight |
| SendRuns.CountedDownAtMost | application/serialcomm/Tranceiver.c:178-222 | Over whole runs: however often the task runs, the timer of a frame is counted down at most once for each tick |
| SendRuns.NeverMoreThanThrice | application/serialcomm/Tranceiver.c:178-222 | From the start on, without negative acknowledgements, every buffer is in one place and no frame is sent more than three times |
| SendRuns.AlwaysWatched | application/serialcomm/TransL2S.c:560-629 | From the start on, the timer that guards the layer below runs exactly while that has a frame to send |
| SendRuns.InTurn | application/serialcomm/Tranceiver.c:196-212 | If nothing is in flight the oldest command is launched, and the oldest data frame if there is no command; it leaves its queue, unchanged but for the number of sends left |
| SendRuns.FreedOnlyFor | application/serialcomm/Tranceiver.c:373-421 | A frame that wants an acknowledgement is freed only when it is acknowledged, when it was not sent in time, or when its timer has run out after three sends |
| RingFile.Encode | library/common/ring_file.h:25-35 | The packed header is read back as it was written |
| RingFile.EncodingUnique | library/common/ring_file.h:25-35 | No other bytes are read as the same header |
| RingFile.PackedInOrder | library/common/ring_file.h:25-35 | These are the bytes of the fields in the order of their declaration, low bytes first |
| RingFile.RingFile.Init | library/common/ring_file.c:48-135 | A file of the right length is taken as it is, any other replaced by an empty one filled with zeros; a ring that is opened again has its records |
| RingFile.RingFile.PushBack | library/common/ring_file.c:144-227 | Appends the record exactly if there is room, as long as the index has not lost its place: for 65536 pushes, or for ever if the size divides 65536 |
| RingFile.RingFile.PopFront | library/common/ring_file.c:235-355 | Takes the oldest record and overwrites its place; the check of the offset never gets in the way |
| RingFile.RingFile.GetFront | library/common/ring_file.c:363-483 | Reads the oldest record; fails exactly on an empty ring |
| RingFile.RingFile.Flush | library/common/ring_file.c:512-565 | Empties the ring and puts its indices right |
| RingFile.PushAppends | library/common/ring_file.c:167-201 | With the place right, the records in the file are those before and the new one |
| RingFile.PushMisplaced | library/common/ring_file.c:167-201 | With the place wrong, the latest record is what was left in its place |
| RingFile.PushKeepsAligned | library/common/ring_file.c:167-196 | A push keeps the place right if and only if the index does not wrap, or the size divides 65536 |
| RingFile.RetryTable | application/network/network.c:247-248 | A table of 5000 records loses its place |
| RingFile.PopTakes | library/common/ring_file.c:252-320 | A pop takes exactly the oldest record out, and keeps the place right if it was |
| RingFile.ReopenKeeps | library/common/ring_file.c:97-109 | A created file passes the test of its length if and only if the record size is 259 or there are no records |

## Left out

- exFAT, fast seek, `f_expand`, `f_mkfs`, `f_fdisk`, labels, attributes, string functions and wide-character APIs: not compiled.
- Code pages: upper-casing of long names is an arbitrary idempotent function that keeps the terminator; patterns and short names are single bytes, so that lead bytes of code page 932 are excluded in `Pattern`.
- The search for the partition and for a boot sector before the parameter block is read (`check_fs`), and the FSInfo sector: the free count starts out unknown.
- `fsi_flag`, `sync_fs`, `f_sync`, `f_open`, `f_close`, object validation, locks and timestamps: a file object starts in the state in which opening leaves it.
- One file or directory is open on a volume at a time: `File.Valid` owns its chain, and other chains are framed by the table.
- FileIO.File.Write: the length of `data` is the count that the caller passes, at most 32 bits.
- Directory.DirClear: after a failed write nothing is said about the sectors of the cluster itself, nor that the volume invariant holds: the window may be blank whatever the medium has.
- `last_clst`, the cluster from which the next search for a free one starts: files and directories do not say what becomes of it, because any value finds a free cluster if there is one.
- DirUpdate.Register: after a disk error in the middle only the part stored so far is described, by `DirUpdate.StoreRow`; the numbering of short names (`gen_numname`) is an arbitrary function `gen`.
- Crc.EntryIs: the table of constants is laid out in 16 rows.
- Fifo.Fifo.RewindHead: requires that no protected byte has been overwritten, because a push does not look at protection.
- FrameParser.Receiver.OnRecvFrame: bytes behind the buffer are a parameter; sequence numbers are those of one remote node.
- Two link instances parsing at once: they share the length of the current frame, and the model has one instance.
- Queue.Queue.Append: an appended buffer must be in no queue, which `BufferQueues` proves of every step. What happens to the buffers of a queue that looks empty is not followed.
- Transceiver.Trans.Send: whether there is memory is a parameter, and memory holds at most 255 buffers at a time, so that no queue of the sender gets a 256th. It has been started; the data of the frame is not part of the sender.
- Transceiver.Trans.RunSendFrame: whether the layer below is ready and accepts the frame are parameters.
- Recovery after a negative acknowledgement: it carries the number of the last good frame and does not look at the sends left, so that nothing is claimed about the number of sends after one.
- RingFile.RingFile.PushBack: operations on the file succeed; the file is a sequence of bytes, which is what `FileIO` proves an open file to be. Records have the 259 bytes of `ring_file_record_t`.
- RingFile.RingFile.PopFront: the same.
- RingFile.RingFile.GetFront: the same.
- RingFile.RingFile.Flush: the same.
- RingFile.RingFile.Init: the same for operations on the file.
- Mutexes, semaphores, timers and memory management: steps are atomic.
- Networking, drivers, the shell, sampling and configuration: register access, socket calls and string building.
