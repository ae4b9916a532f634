# Data movement in MARSS-x86 / QEMU, verified in Dafny

MARSS-x86 is a cycle-accurate x86 simulator built on QEMU 0.14.1. This project models the parts of its
QEMU layer where data is copied, cached or re-encoded while other things keep changing it, and proves
that they agree with a simple reference over every run:

- live RAM migration (`Wire`, `RamStream`, `RamSource`, `RamSaver`, `RamLoader`, `RamMigration`): the
  cyclic dirty-page scan, the byte stream and its receiver, with guest stores in between;
- live block migration (`BlockMigration`, `BlockSaver`, `BlockStream`, `BlockLoader`, `BlockTransfer`):
  bulk pass, asynchronous dirty pass, completion queue, final pass, and the byte stream;
- the generic block layer: merging of write requests (`MultiwriteMerge`), the order in which the merged
  writes complete (`MultiwriteOrder`), submission and completion of a batch (`MultiwriteRun`), commit of an
  overlay (`Commit`), dirty tracking (`DirtyBitmap`) and byte access on sectors (`ByteAccess`), over shared
  facts about overwriting (`Patching`);
- AES (`AesField`, `AesCipher`, `AesTables`, `Aes`, `AesKey`, `AesCbc`): the table-driven cipher, its key
  schedules and CBC against FIPS 197 (sections 5.1, 5.2, 5.3 and 5.3.5) and section 6.2 of NIST SP 800-38A,
  with the values that FIPS 197 lists (`AesVectors`);
- the execution core: translation-block lookup (`TbCache` on values, `TbTable` on linked blocks) and
  instruction counting (`Icount`);
- the rate-limited output buffer (`BufferedFile`) and the Alpha disassembler's opcode search and
  displacement fields (`AlphaSearch`, `AlphaFields`).

Protocols are state machines over events; their main results are lemmas about every run. The code of each
core file is a class or a method whose contract ties it to those machines or to a specification function.
What the outside world decides (guest actions, driver answers, short writes, failures, address translation)
is a parameter, so each statement holds for all of it. `dafny verify dfyconfig.toml` checks everything.

Where the code does not keep what one would expect of it, the model follows the code and states exactly
when the expectation holds:

- merging a request that ends before an earlier one drops data: `MergeExact`, `NestedWriteLosesTail`;
- the limit on vectors can keep overlapping writes apart, and then the order in which they complete shows:
  `MergedOrderExact`, `ManyVectorsShowTheirOrder`;
- a migration read that is overtaken by a later read of the same chunk sends old data last, as the bulk pass
  does not set the in-flight bitmap: `BenignIsExact`, `OvertakenReadLosesData`. Once no bulk read is in
  flight the bitmap rules this out: `SoloIsLegal`;
- blocks still queued when the final pass ends are freed unsent: `FinalExact`, `QueuedBlockIsDropped`;
- enabling dirty tracking twice zeroes the count and keeps the bits: `TrackingExact`,
  `ReenablingLosesTheCount`;
- a failed flush does not stop the put that triggered it, so later bytes can overtake buffered ones:
  `PutOrderExact`, `ErrorReorders`;
- a commit into a read-only backing file reports the result of its last reopen, not of the copy:
  `CommitToBacking`, `FailedCommitReportsSuccess`;
- the comment on bdrv_aio_multiwrite says that 0 means that all requests were submitted; a write that is
  refused after the first one is reported through the callbacks and the call still returns 0:
  `SubmittedExact`, `LateRefusal`.

## Model

| member | source | states |
|---|---|---|
| Wire.GetPut | qemu/savevm.c:632-675 | Reading a big-endian number back from the bytes it was written as gives the number, for every width. |
| Wire.Get64Put64 | qemu/savevm.c:645-675 | The 64-bit case, for every word. |
| Wire.Minus64Wraps | qemu/arch_init.c:387-417 | The length subtraction of the block list wraps at 64 bits. |
| RamStream.FlagsSplit | qemu/arch_init.c:124-172 | The flags that share a word with a page-aligned address come out as they went in. |
| RamStream.SizesRoundTrip | qemu/arch_init.c:287-293 | The receiver's block-list loop accepts every list of known blocks and consumes exactly its bytes. |
| RamStream.ResolveRoundTrip | qemu/arch_init.c:336-364 | A record's block name, or CONTINUE, resolves to the block that the sender meant. |
| RamStream.RecordRoundTrip | qemu/arch_init.c:375-453 | One turn of the receiver consumes exactly one record and applies it, for every record and whatever follows. |
| RamStream.SectionsRoundTrip | qemu/arch_init.c:366-456 | Over any number of sections, loading consumes exactly the bytes emitted and makes the same updates. |
| RamSource.PageNoInjective | qemu/arch_init.c:111-173 | Pages of disjoint blocks have different dirty bytes, so comparing addresses compares pages. |
| RamSource.NextDist | qemu/arch_init.c:157-167 | The scan's next page is one step further round the cycle of all pages, and closes it only at the start. |
| RamSource.SendRemovesOne | qemu/arch_init.c:111-193 | A send takes exactly the page sent out of the set of dirty pages, whose size drops by one. |
| RamSaver.IsDupPage | qemu/arch_init.c:93-106 | The word-wise comparison is true exactly when every byte of the page is the given one. |
| RamSaver.MarkAll | qemu/arch_init.c:272-281 | Afterwards every page of every block has its migration flag; a byte that changed had no migration flag and now has all flags. |
| RamSaver.Saver.MaskDirtyRange | qemu/cpu-all.h:936-949 | Exactly the pages of the range lose the migration flag. |
| RamSaver.Saver.GuestStore | qemu/exec.c:3087-3105 | A guest store is a step that leaves every changed page dirty and clears no flag. |
| RamSaver.Saver.Scan | qemu/arch_init.c:111-170 | Finds the first dirty page in cyclic order from the cursor, or reports exactly that none is dirty. |
| RamSaver.Saver.SaveBlock | qemu/arch_init.c:111-173 | Returns 0 exactly when no page is dirty; otherwise makes the protocol's send step. |
| RamSaver.Saver.SendPage | qemu/arch_init.c:124-166 | Clears the page's flag and appends its record, with the name only when the block changes. |
| RamSaver.Saver.Begin | qemu/arch_init.c:265-294 | Stage 1 leaves every page dirty, a fresh cursor and the block list on the wire. |
| RamSaver.Saver.Transfer | qemu/arch_init.c:299-307 | The rate-limited loop only takes steps of the protocol, and sends exactly as many pages as the budget allows or are dirty, whichever is less. |
| RamSaver.Saver.Drain | qemu/arch_init.c:319-327 | The stage 3 loop terminates, sends one record for every dirty page and leaves none dirty. |
| RamSaver.Saver.SaveLive | qemu/arch_init.c:249-334 | Every call is a run of protocol steps: so many page records as the budget allows or are dirty, in stage 3 all of them, then EOS; the bytes counted are those of the records; a negative stage sends nothing. |
| RamSaver.Saver.Remaining | qemu/arch_init.c:177-193 | Counts exactly the dirty pages. |
| RamLoader.Loader.SyncBlockList | qemu/arch_init.c:381-418 | The MEM_SIZE loop gives the specified verdict and rest of the stream. |
| RamLoader.Loader.HostFromStream | qemu/arch_init.c:336-364 | Resolves the block as specified and leaves it in the static pointer. |
| RamLoader.Loader.TakePage | qemu/arch_init.c:420-449 | Stores the page, or fails, as specified. |
| RamLoader.Loader.Load | qemu/arch_init.c:366-456 | One call of the loader leaves the memory, block pointer and unread bytes of the specification. |
| RamMigration.SendAccepted | qemu/arch_init.c:124-172 | The receiver of a run accepts the next page record and resolves it to the sender's block. |
| RamMigration.StepKeepsInv | qemu/arch_init.c:111-173 | Each send, guest step and section end keeps clean pages equal at both sides. |
| RamMigration.RunKeepsInv | qemu/arch_init.c:249-334 | In every interleaving from stage 1 on, each page whose flag is clear is equal at the receiver. |
| RamMigration.RunsJoin | qemu/arch_init.c:249-334 | Runs of successive calls, with guest steps between, form one run. |
| RamMigration.MigrationComplete | qemu/arch_init.c:249-456 | Once a run has drained and closed its section, loading its bytes uses them all and leaves the sender's memory, whatever the receiver held. |
| BlockMigration.InOrderIsBenign | qemu/block-migration.c:192-208 | Completions in issue order per chunk are benign. |
| BlockMigration.CompletionExact | qemu/block-migration.c:192-208 | A read completion keeps the invariant if and only if it is benign. |
| BlockMigration.InvIsExact | qemu/block-migration.c:558-638 | The invariant holds in exactly the states from which every orderly run of whole chunks that drains its queue ends with equal disks. |
| BlockMigration.BenignIsExact | qemu/block-migration.c:192-208 | A read completion is benign if and only if every such run after it ends with equal disks. |
| BlockMigration.StepKeepsInv | qemu/block-migration.c:192-494 | Every other event, guest writes included, keeps the invariant. |
| BlockMigration.RunKeepsInv | qemu/block-migration.c:558-638 | In every run with benign completions, each chunk passed by the bulk cursor is dirty, under a write, in flight, queued or equal at the destination. |
| BlockMigration.FinalExact | qemu/block-migration.c:617-624 | Stage 3 ends with equal disks, whatever a receiver with disks of these sizes may hold by the invariant, if and only if every chunk with a block still queued is dirty. |
| BlockMigration.DrainedIsEqual | qemu/block-migration.c:617-624 | If every chunk still queued is dirty, the final pass leaves the sender's disks at the receiver. |
| BlockMigration.MigrationComplete | qemu/block-migration.c:558-638 | A run that drains its queue before the final pass ends with equal disks. |
| BlockMigration.OvertakenReadLosesData | qemu/block-migration.c:192-273 | A run in which a bulk read is overtaken and the disks end different. |
| BlockMigration.QueuedBlockIsDropped | qemu/block-migration.c:534-556 | A run whose queued block is freed and the disks end different. |
| BlockSaver.Saver.constructor | qemu/block-migration.c:284-333 | Stage 1 establishes the invariant and the protocol's start, with both disks as given, and sends an empty section. |
| BlockSaver.Saver.BlkSend | qemu/block-migration.c:86-100 | The record sent carries the block: its first sector, the device's name, and a whole buffer that begins with its data, whatever follows. |
| BlockSaver.Saver.ReadCallback | qemu/block-migration.c:192-208 | A completion moves the read to the queue, clears its bit and keeps the counters exact. |
| BlockSaver.SoloIsLegal | qemu/block-migration.c:146-208 | While every read in flight has its own bit in the in-flight bitmap, every completion is benign, in whatever order. |
| BlockSaver.Saver.SaveDeviceBulk | qemu/block-migration.c:210-273 | Issues the read at the cursor; true exactly when the device is through. |
| BlockSaver.Saver.ScanDirty | qemu/block-migration.c:390-447 | Stops at a dirty chunk or at the end, waiting for a flagged read; each chunk passed was clean at some moment of the scan, and still is if nothing is outstanding. |
| BlockSaver.Saver.SaveDeviceDirty | qemu/block-migration.c:382-447 | Handles at most one dirty chunk: an asynchronous read, or a synchronous send that puts it on the stream. |
| BlockSaver.Saver.SaveDirtyBlock | qemu/block-migration.c:449-462 | True exactly when some device's cursor is not yet through; asynchronous, one more block is then on its way, and each chunk the cursors passed was clean at some moment; synchronous, one dirty chunk has been sent. |
| BlockSaver.Saver.SaveBulkedBlock | qemu/block-migration.c:335-371 | True exactly when the bulk pass had not passed every chunk; then one more chunk is passed and one more read is on its way. |
| BlockSaver.Saver.ReadUntil | qemu/block-migration.c:592-607 | The stage 2 loop: reads until exactly the limit is on its way, or the bulk pass is over and every dirty cursor at its end. |
| BlockSaver.Saver.FlushBlks | qemu/block-migration.c:464-494 | Sends from the head of the queue onto the stream exactly as many blocks as the budget allows or are queued. |
| BlockSaver.Saver.WriteCallback | qemu/block.c:2083-2092 | A completing write makes dirty exactly the chunks that hold one of its sectors, and keeps the migration's invariant. |
| BlockSaver.ChunkSizes | qemu/block-migration.c:25 | Dirty bitmap, protocol and stream count chunks of the same size. |
| BlockSaver.Saver.AioFlush | qemu/block-migration.c:390-393 | Whatever the guest does meanwhile, completing all outstanding requests is a run of protocol events with benign completions, and empties the in-flight bitmap. |
| BlockSaver.Saver.Stage2 | qemu/block-migration.c:581-614 | A stage 2 call is a run of protocol events with benign completions, and terminates. It issues reads until exactly the limit is on its way, unless the bulk pass is over and every chunk was seen clean; bulk reads come first; what is read and not flushed is counted. It closes one section, and once the bulk reads are done the bitmap keeps the reads in flight apart. |
| BlockSaver.Saver.DrainDirty | qemu/block-migration.c:622 | The stage 3 loop terminates; what it puts on the stream is every dirty chunk with its present contents. |
| BlockSaver.Saver.Finish | qemu/block-migration.c:617-624 | The final pass, the cleanup, the completion report and the end of the section are the protocol's final pass, on the stream too. |
| BlockSaver.Saver.Stage3 | qemu/block-migration.c:581-624 | A flush that is a run of the protocol, then the final pass: with the bulk pass over and the queue within the budget, the receiver ends with the sender's disks; the stream gets the flushed blocks and then the dirty chunks. |
| BlockSaver.RunLoads | qemu/block-migration.c:558-714 | The records of any drained run of the code, encoded and loaded, leave the sender's disks. |
| BlockSaver.Migrate | qemu/block-migration.c:284-714 | A whole migration of the code, the guest running and the rate limits arbitrary: complete if and only if the bulk pass is over before stage 3 and its queue is within the budget, and then block_load, given the bytes of the stream, uses them all and leaves the sender's disks at any receiver with such devices; each call closes one section. |
| BlockStream.HeadSplits | qemu/block-migration.c:86-100 | Sector number and flags come out of a head word as they went in. |
| BlockStream.HeadWords | qemu/block-migration.c:27-29 | The head words of a block, a progress report and the end of a section, with the flag values of the source. |
| BlockStream.NegativeSector | qemu/block-migration.c:651-653 | A head word with its top bit set is a negative sector. |
| BlockStream.RecordRoundTrip | qemu/block-migration.c:640-714 | One turn of block_load consumes exactly one record and applies it. |
| BlockStream.SectionsRoundTrip | qemu/block-migration.c:640-714 | Over any sections, block_load consumes exactly the bytes sent and stores the same blocks. |
| BlockLoader.Loader.TakeBlock | qemu/block-migration.c:657-695 | Stores the block cut at the device's end, or fails without a change. |
| BlockLoader.Loader.Load | qemu/block-migration.c:640-714 | One call leaves the disks and unread bytes of the specification. |
| BlockTransfer.StoreChunk | qemu/block-migration.c:681-690 | A stored block replaces its chunk and no other, the short last chunk included. |
| BlockTransfer.DisksShow | qemu/block-migration.c:235-242 | Disks of any sizes have a list of their chunks, the last one short. |
| BlockTransfer.RunSends | qemu/block-migration.c:464-494 | What the receiver holds after a run is what the blocks it sent make of what it held. |
| BlockTransfer.FinalSends | qemu/block-migration.c:617-624 | Sending each dirty chunk in any order is the final pass. |
| BlockTransfer.ReplayShows | qemu/block-migration.c:640-714 | Records that carry blocks are accepted and leave exactly those chunks. |
| BlockTransfer.StreamComplete | qemu/block-migration.c:558-714 | End to end on bytes: loading the stream of a drained migration uses it all and leaves the sender's disks. |
| MultiwriteMerge.FlatTake | qemu/cutils.c:179-214 | Copying a prefix of a scatter list copies exactly that many bytes, cutting the last vector. |
| MultiwriteMerge.JoinBytes | qemu/block.c:2249-2275 | A joined request byte by byte: the second over the first, zeros only in a gap. |
| MultiwriteMerge.MergeMeans | qemu/block.c:2226-2281 | For sorted requests, at every byte that is not lost: the merged requests leave what the originals leave, or a zero in a gap that the driver asked to close. |
| MultiwriteMerge.GapIsWanted | qemu/block.c:2226-2242 | A gap between requests is closed only when the driver's hook asked for it. |
| MultiwriteMerge.TouchingBecomeOne | qemu/block.c:2226-2281 | Sorted requests that touch or overlap, with fewer vectors than the limit, become one request from the first start to the last end. |
| MultiwriteMerge.ApartStayApart | qemu/block.c:2226-2246 | Requests that reach the limit on vectors, or leave a gap that the driver does not want closed, stay two. |
| MultiwriteMerge.MergePreserves | qemu/block.c:2215-2284 | For safe requests the merged list leaves the disk of the originals, with zeros only in gaps the driver asked to close. |
| MultiwriteMerge.RisingEndsAreSafe | qemu/block.c:2215-2284 | Requests whose ends never go down are safe. |
| MultiwriteMerge.MergeExact | qemu/block.c:2215-2284 | The merge is right for all contents if and only if the extents are safe. |
| MultiwriteMerge.NestedWriteLosesTail | qemu/block.c:2254-2271 | A write inside an earlier one makes the merge drop the earlier tail. |
| MultiwriteMerge.Merge | qemu/block.c:2222-2284 | The loop in place leaves the merged requests in front and every caller's fields where they were. |
| MultiwriteOrder.OrderExact | qemu/block.c:2354-2374 | Writes leave the same disk in every completion order, for all contents, if and only if their extents are disjoint. |
| MultiwriteOrder.MergedDisjointExact | qemu/block.c:2226-2246 | For requests that are not empty, the merged writes are disjoint if and only if the limit on vectors refused no overlapping request. |
| MultiwriteOrder.MergedOrderExact | qemu/block.c:2226-2246 | For requests that are not empty, the completion order of the merged writes cannot show, whatever the requests contain, if and only if the limit on vectors refused no overlapping request. |
| MultiwriteOrder.MergedAnyOrder | qemu/block.c:2226-2246 | If no overlapping request is refused, the merged writes leave the same disk in every completion order, empty requests included. |
| MultiwriteOrder.MergedOrderPreserves | qemu/block.c:2215-2374 | For safe requests of which no overlapping one is refused, every completion order leaves the disk of the originals, with zeros only in gaps the driver asked to close. |
| MultiwriteOrder.ManyVectorsShowTheirOrder | qemu/block.c:2244-2246 | Two overlapping writes of 1024 vectors that stay apart, and two completion orders that leave different bytes. |
| MultiwriteRun.NeverTouchedAfterFree | qemu/block.c:2177-2192 | Nothing that can happen in a reachable state touches the freed control block. |
| MultiwriteRun.StepKeepsInv | qemu/block.c:2163-2386 | Each submission step and each completion keeps the count equal to what is outstanding. |
| MultiwriteRun.RunKeepsInv | qemu/block.c:2300-2386 | So does every interleaving, completions during submission included. |
| MultiwriteRun.ErrorMeansAFailedWrite | qemu/block.c:2177-2192 | The error reported is 0 if and only if all writes were taken and succeeded. |
| MultiwriteRun.BatchCompletes | qemu/block.c:2163-2386 | On -1 no callback ever runs; on 0 each runs exactly once, after the last completion, with the first error; nothing happens after. |
| MultiwriteRun.SubmittedExact | qemu/block.c:2286-2385 | A return of 0 means that every write was submitted if and only if the driver refused none. |
| MultiwriteRun.LateRefusal | qemu/block.c:2352-2385 | A run of two writes in which the second is refused, the call returns 0 and every callback gets -EIO. |
| MultiwriteRun.Batch.UserCb | qemu/block.c:2163-2175 | Calls every callback once, in order, with the error. |
| MultiwriteRun.Batch.Cb | qemu/block.c:2177-2192 | Is the machine's completion. |
| MultiwriteRun.CompletedMeans | qemu/block.c:2177-2192 | Of the completions that a driver makes at a time, exactly the writes it held and named are done afterwards. |
| MultiwriteRun.Batch.Writev | qemu/block.c:2356-2358 | One submission with all completions before and after the driver takes the write. |
| MultiwriteRun.Batch.Submit | qemu/block.c:2352-2385 | The loop is a run of the machine; it returns -1 exactly when the driver refuses the first write, and records a refusal exactly when the driver refuses any. |
| MultiwriteRun.AioMultiwrite | qemu/block.c:2300-2386 | The whole call: no medium, no requests, merge, submission, error fields, and which refusals lead to -1. |
| Commit.HiddenChangeKeepsView | qemu/block.c:818-833 | Changing the backing image only under allocated sectors keeps the guest's view. |
| Commit.ReleaseKeepsView | qemu/block.c:835-839 | Once the data has landed, releasing any overlay sectors keeps the view. |
| Commit.LandedIsCommitted | qemu/block.c:818-833 | Then the backing image alone shows the whole view. |
| Commit.Overlay.CopyAll | qemu/block.c:818-833 | The view is kept at every exit, torn writes included; the copy succeeds if and only if no allocated sector that its walk looks at stops it, and then everything has landed. |
| Commit.Overlay.CopyAndEmpty | qemu/block.c:818-846 | Copy and make_empty keep the view in every case; when the copy succeeds is as for CopyAll, and what each answer of make_empty leads to. |
| Commit.Overlay.CommitToBacking | qemu/block.c:766-870 | The view never changes; the copy finishes if and only if nothing refuses it and no sector stops it, and then the backing image shows the view; the result code, when a failed copy is reported, and when the drive is lost. |
| Commit.FailedCommitReportsSuccess | qemu/block.c:848-870 | A commit into a read-only backing image whose copy fails and which returns 0. |
| DirtyBitmap.ChunksCover | qemu/block.c:943-951 | A request that is not empty touches exactly the chunks of its sectors. |
| DirtyBitmap.BitsExact | qemu/block.c:943-969 | After any operations a bit is set exactly when its chunk was written since it was last cleared. |
| DirtyBitmap.CountExact | qemu/block.c:2750-2769 | The count is the number of set bits less what a repeated enable dropped. |
| DirtyBitmap.DriftExact | qemu/block.c:2750-2769 | Nothing was dropped from the count if and only if the last switch was not an enable over set bits. |
| DirtyBitmap.TrackingExact | qemu/block.c:2750-2793 | Over every run: bits as above, and the count is the number of set bits if and only if the last switch was not an enable over set bits. |
| DirtyBitmap.ReenablingLosesTheCount | qemu/block.c:2754-2762 | A run that ends with a set bit and count 0. |
| ByteAccess.WrittenMeans | qemu/block.c:943-997 | A write of bytes adds exactly the chunks of those bytes. |
| ByteAccess.WrittenJoins | qemu/block.c:1044-1091 | Marking the parts of a request marks what marking the whole would. |
| ByteAccess.ChunkOfByte | qemu/block.c:943-951 | The dirty chunk of a byte is its mebibyte. |
| ByteAccess.Device.SetDirtyBitmap | qemu/block.c:943-969 | The loop sets or clears exactly the chunks of the request and moves the count with them. |
| ByteAccess.Device.SetDirtyTracking | qemu/block.c:2750-2769 | Is the tracker's switch. |
| ByteAccess.Device.ResetDirty | qemu/block.c:2784-2788 | Is the tracker's reset. |
| ByteAccess.Device.GetDirty | qemu/block.c:2771-2782 | After any history of writes, resets and switches: true exactly for a sector of the device whose chunk was written since it was last cleared. |
| ByteAccess.Device.Check | qemu/block.c:900-926 | Accepts exactly the requests inside an inserted device. |
| ByteAccess.Device.Read | qemu/block.c:930-941 | Succeeds exactly inside the device and unless the driver fails, with the sectors' bytes; which error otherwise. |
| ByteAccess.Device.Write | qemu/block.c:977-997 | Bits are set before the driver is called; which error when, and what a failed write leaves. |
| ByteAccess.Device.Pread | qemu/block.c:999-1042 | Returns exactly the bytes asked for, succeeds only inside the device, and always there when no read fails. |
| ByteAccess.Device.Pwrite | qemu/block.c:1044-1091 | Changes exactly the given bytes and marks exactly their chunks; a failure stays inside the request's sectors, writes a prefix, and misses no dirty bit. |
| AesField.InverseIsInverse | qemu/aes.c:46-58 | The power 254 that the S-box uses is the field inverse of every byte but zero, which it keeps. |
| AesField.SquareIsMul | qemu/aes.c:46-58 | The bitwise square from which the inverse is built is the product in the field. |
| AesField.Multiples | qemu/aes.c:46-58 | The coefficients of MixColumns and its inverse are products in the field. |
| AesVectors.SBox | qemu/aes.c:325-390 | The S-box has the 256 values of figure 7 of FIPS 197. |
| AesVectors.AffineValues | qemu/aes.c:46-58 | The affine map is the one of section 5.1.1 of FIPS 197, by its values at zero and the single bits. |
| AesVectors.AffineAdds | qemu/aes.c:46-58 | It is affine: it adds up over sums of bytes, with its value at zero. |
| AesVectors.XTimeValues | qemu/aes.c:46-58 | Multiplication by the variable is reduced by the polynomial 0x11b. |
| AesVectors.TableValues | qemu/aes.c:60-657 | The first entries of all ten tables are those of the source. |
| AesVectors.CipherExample | qemu/aes.c:885-1070 | The cipher takes the input of appendix B of FIPS 197 to its output, through the listed states of every round. |
| AesField.SBoxInverts | qemu/aes.c:46-58 | The S-box of field inverse and affine map, and its inverse, undo each other on every byte. |
| AesField.InvMixInverts | qemu/aes.c:46-58 | InvMixColumns undoes MixColumns on every column. |
| AesField.InvMixLinear | qemu/aes.c:852-878 | InvMixColumns distributes over the key addition. |
| AesCipher.DecryptionInverts | qemu/aes.c:832-878 | The equivalent inverse cipher under the decryption schedule undoes the cipher, for all round keys and counts. |
| AesTables.EncRowMixes | qemu/aes.c:982-1027 | One table row is SubBytes, MixColumns and key addition of a column. |
| AesTables.DecRowMixes | qemu/aes.c:1173-1218 | One inverse row is InvSubBytes, InvMixColumns and key addition. |
| AesTables.EncLastSubs | qemu/aes.c:1033-1069 | The Te4 row is SubBytes and key addition. |
| AesTables.DecLastSubs | qemu/aes.c:1224-1260 | The Td4 row is InvSubBytes and key addition. |
| Aes.EncRound | qemu/aes.c:982-1004 | Four rows are one round of the reference cipher, with ShiftRows in the indices. |
| Aes.EncRounds | qemu/aes.c:980-1027 | The loop of two rounds per turn makes all rounds but the last, for any even count. |
| Aes.Encrypt | qemu/aes.c:885-1070 | AES_encrypt computes the reference cipher of section 5.1 of FIPS 197. |
| Aes.DecRound | qemu/aes.c:1173-1195 | Four inverse rows are one round of the equivalent inverse cipher. |
| Aes.DecRounds | qemu/aes.c:1171-1218 | The decrypting loop makes all its rounds but the last. |
| Aes.Decrypt | qemu/aes.c:1076-1261 | AES_decrypt computes the equivalent inverse cipher of section 5.3.5 of FIPS 197. |
| AesKey.TurnedIsMangle | qemu/aes.c:758-764 | The masked table word is RotWord, SubWord and Rcon of the standard. |
| AesKey.Expand128 | qemu/aes.c:752-773 | The unrolled loop fills the schedule of the recurrence of section 5.2 of FIPS 197. |
| AesKey.Expand192 | qemu/aes.c:774-795 | The same for 192-bit keys. |
| AesKey.Expand256 | qemu/aes.c:796-825 | The same for 256-bit keys, with the extra SubWord. |
| AesVectors.Words128 | qemu/aes.c:752-773 | The first round of the 128-bit expansion of appendix A.1 of FIPS 197. |
| AesVectors.Words192 | qemu/aes.c:774-795 | The first round of the 192-bit expansion of appendix A.2 of FIPS 197. |
| AesVectors.Middle256 | qemu/aes.c:796-825 | The first round of the 256-bit expansion of appendix A.3 of FIPS 197, the extra SubWord included. |
| AesKey.SetEncryptKey | qemu/aes.c:731-827 | -1 for a missing argument, -2 for another key size; else Nk + 6 rounds (section 5 of FIPS 197), the bytes of the key in the first words, and the whole schedule. |
| AesKey.ReverseKeys | qemu/aes.c:846-852 | The in-place swaps reverse the order of the round keys. |
| AesKey.InvMixWordMixes | qemu/aes.c:854-875 | The Td-of-Te4 word is InvMixColumns of the word. |
| AesKey.InvertSchedule | qemu/aes.c:844-878 | Both in-place loops give the decryption schedule of the standard. |
| AesKey.SetDecryptKey | qemu/aes.c:832-878 | The same codes and round counts, and the decryption schedule of the expanded key. |
| AesKey.DecryptUndoesEncrypt | qemu/aes.c:832-1261 | What AES_decrypt computes under such a schedule undoes AES_encrypt on every block. |
| AesCbc.CbcInverts | qemu/aes.c:1265-1314 | For any block function and its inverse, decrypting undoes encrypting on all lengths. |
| AesCbc.CbcRoundTrip | qemu/aes.c:1265-1314 | The same for AES with any round keys, partial last block included. |
| AesCbc.CbcEncSplits | qemu/aes.c:1274-1294 | Splitting at a block boundary and carrying ivec changes nothing when encrypting. |
| AesCbc.CbcDecSplits | qemu/aes.c:1295-1313 | Nor when decrypting. |
| AesCbc.CbcEncrypt | qemu/aes.c:1274-1294 | The encrypting branch in place computes the chain and its vector, also with one buffer. |
| AesCbc.CbcDecrypt | qemu/aes.c:1295-1313 | The decrypting branch likewise, with the vector it leaves after a partial block. |
| TbCache.FindUnique | qemu/cpu-exec.c:151-171 | In a tidy chain the search finds a key's block wherever it is. |
| TbCache.SearchedContents | qemu/cpu-exec.c:176-182 | Search and move-to-front lose and duplicate nothing. |
| TbCache.SlowKeepsInv | qemu/cpu-exec.c:134-186 | A slow lookup keeps every block in its bucket, once, and one current block per key. |
| TbCache.HitAgrees | qemu/cpu-exec.c:188-204 | A jump-cache hit returns what the chain search would find. |
| TbCache.LookupFinds | qemu/cpu-exec.c:188-204 | Every lookup returns a block with the key's pc, cs_base and flags, whose first page, and second page if it has one, are those of the code now, and which the cache then holds. |
| TbCache.LookupTakes | qemu/cpu-exec.c:150-171 | A block of the key's chain that has all these is the one returned. |
| TbCache.NextPageWraps | qemu/cpu-exec.c:160-162 | The second page is the next one in 64-bit address arithmetic. |
| TbCache.RunKeepsInv | qemu/cpu-exec.c:134-204 | The invariant over every run of lookups. |
| TbCache.RunKeepsBlocks | qemu/cpu-exec.c:134-204 | Blocks stay in their chains, and only blocks made by a lookup are added. |
| TbCache.SameKeySameBlock | qemu/cpu-exec.c:134-204 | A key finds the same block throughout a run. |
| TbTable.Search | qemu/cpu-exec.c:150-171 | The pointer walk finds the first match and the link that leads to it. |
| TbTable.Relink | qemu/cpu-exec.c:176-182 | Relinking through the found link moves the block to the front of the chain. |
| TbTable.GenCode | qemu/exec.c:1269-1283 | A new block is linked in at the head of its bucket. |
| TbTable.FindInChain | qemu/cpu-exec.c:150-182 | The empty-chain case included, the links end as the searched chain. |
| TbTable.Table.constructor | qemu/exec.c:719 | Empty tables satisfy the invariant. |
| TbTable.Table.FindSlow | qemu/cpu-exec.c:134-186 | The linked tables change as the slow lookup specifies; the block returned has the key and the present pages of its code, is from the chain or new, and is at the head of its bucket and in the jump cache. |
| TbTable.Table.FindFast | qemu/cpu-exec.c:188-204 | The linked tables change as the fast lookup specifies, and the block returned has the key and the present pages of its code. |
| Icount.StepKeepsInv | qemu/cpus.c:887-911 | Set-up, blocks, restores, refills, interrupts and fold-back conserve the count. |
| Icount.RunKeepsInv | qemu/cpu-exec.c:811-836 | So does every run, on any number of CPUs. |
| Icount.BudgetSplits | qemu/cpus.c:890-898 | A budget is split into what fits 16 bits and the rest, the low half full first. |
| Icount.RefillSplits | qemu/cpu-exec.c:817-826 | So is what is left at a refill. |
| Icount.SignedIsWord | qemu/cpu-exec.c:816 | The two halves read as one signed 32-bit word, negative exactly when an interrupt is pending. |
| Icount.ClockIsExact | qemu/cpus.c:988-1001 | The clock shows the instructions executed; the low half fits 16 bits; no slice exceeds its budget. |
| Icount.CounterIsConserved | qemu/cpus.c:887-911 | Between idle points the counter grows by exactly what was executed. |
| Icount.ExpiryIsExact | qemu/cpu-exec.c:811-836 | An expiry refills, or ends the slice with less left than the next block needs. |
| Icount.Clock.Expired | qemu/cpu-exec.c:811-836 | The refill branch is the machine's; leaving runs exactly the throw-away block of what is left. |
| Icount.PlayRunsAll | qemu/cpu-exec.c:811-836 | Blocks that the decrementer can pay for are all executed by the loop. |
| Icount.Clock.QemuCpuExec | qemu/cpus.c:887-911 | Set-up, the steps of the guest that can happen, and fold-back; the counter ends higher by what was executed. |
| Icount.Clock.GetIcount | qemu/cpus.c:988-1001 | Computes the exact clock in every reachable state. |
| BufferedFile.FlushFromOrder | qemu/buffered_file.c:73-108 | A flush moves a prefix of the buffer to the backend and stops only when frozen or in error. |
| BufferedFile.SendFromOrder | qemu/buffered_file.c:127-154 | Direct sending moves a prefix of the data and counts it. |
| BufferedFile.StepKeepsInv | qemu/buffered_file.c:110-168 | Puts, ticks and rate changes keep order and bound. |
| BufferedFile.RunKeepsInv | qemu/buffered_file.c:49-252 | Over every run: delivered then buffered bytes are the accepted ones while there is no error, and the direct bytes of a tick are bounded. |
| BufferedFile.PutOrderExact | qemu/buffered_file.c:110-168 | A put keeps the order for all contents if and only if it does not overtake its own failed flush. |
| BufferedFile.ErrorReorders | qemu/buffered_file.c:110-168 | A run in which it does. |
| BufferedFile.RateIsPerSecond | qemu/buffered_file.c:209-223 | Ten times the limit of a tick is the rate per second, up to a rest below ten; a file in error keeps its limit; nothing else changes. |
| BufferedFile.Output.FlushBuffer | qemu/buffered_file.c:73-108 | The loop computes the specified flush. |
| BufferedFile.Output.AppendBuffer | qemu/buffered_file.c:49-71 | Appended bytes come after all earlier ones, and the buffer never outgrows its memory. |
| BufferedFile.Output.PutBuffer | qemu/buffered_file.c:110-168 | Computes the specified put, its result and the ready notice. |
| BufferedFile.Output.RateLimit | qemu/buffered_file.c:193-207 | In every reachable state: a file that is not full has delivered all it accepted, unless the limit was raised since; one that is full by its limit sends nothing directly, whatever is put. |
| BufferedFile.Output.RateTick | qemu/buffered_file.c:232-252 | A file in error is closed; otherwise, unless frozen, the tick flushes in order, tells the client, and leaves the buffer empty if the backend took it all. |
| BufferedFile.Output.Drain | qemu/buffered_file.c:177-181 | When the loop of close ends, everything accepted is delivered or an error occurred; it ends within two turns per byte if after each wait the backend is ready or fails. |
| AlphaSearch.MatchHasMajor | qemu/alpha-dis.c:1833-1836 | Masks that cover the major opcode let only that major opcode match. |
| AlphaSearch.MajorIsTop | qemu/alpha-dis.c:76 | The major opcode is the top six bits of an instruction. |
| AlphaSearch.AvailableByBit | qemu/alpha-dis.c:1836-1837 | An entry is available exactly in the instruction sets whose bit it has. |
| AlphaSearch.FirstMatchNarrows | qemu/alpha-dis.c:1829-1855 | Entries that cannot match may be skipped at both ends. |
| AlphaSearch.IndexedSearchExact | qemu/alpha-dis.c:1826-1855 | The indexed slice has the first match of the whole table. |
| AlphaSearch.BuildIndex | qemu/alpha-dis.c:1779-1792 | For a sorted table each slice of the index holds exactly its major opcode. |
| AlphaSearch.Search | qemu/alpha-dis.c:1829-1855 | The loops find the first match of the whole table. |
| AlphaFields.QuarterNegative | qemu/alpha-dis.c:524-530 | The division by 4 rounds negative displacements towards zero. |
| AlphaFields.BranchRoundTrip | qemu/alpha-dis.c:524-537 | A branch displacement survives insert and extract if and only if it is aligned and in reach. |
| AlphaFields.BranchRestores | qemu/alpha-dis.c:524-537 | Extract and insert restore the instruction. |
| AlphaFields.HintRoundTrip | qemu/alpha-dis.c:542-555 | The same for jump hints. |
| AlphaFields.HintRestores | qemu/alpha-dis.c:542-555 | And back. |
| AlphaFields.HwHintRoundTrip | qemu/alpha-dis.c:559-572 | The same for EV6 hardware jump hints. |
| AlphaFields.HwHintRestores | qemu/alpha-dis.c:559-572 | And back. |

## Left out

- RAM stream version 3, sort_ram_list and the pointer order of the block list: the list is given in its order.
- Failure of cpu_physical_sync_dirty_bitmap, KVM dirty logs and the downtime estimate of ram_save_live.
- Streams that end early: the model stops with a short-stream error where the file layer would return zeros and raise its error flag.
- Memory is counted in pages and disks in migration chunks, as every offset that the code uses is a multiple of them.
- Shared-base skipping of unallocated sectors in the bulk pass, read errors of migration reads, the percentages of progress reports (any may be sent) and the bandwidth estimate.
- block_save_live with storage migration disabled or cancelled.
- MultiwriteOrder.MergedOrderExact: exact for requests of at least one sector; an empty request can be refused inside another without any byte being written twice, and for those only MergedAnyOrder and OrderExact speak.
- qsort: MultiwriteMerge starts from requests in sorted order, whichever order equal sectors got.
- The free_buf and free_qiov bookkeeping of merged requests.
- Growable devices in byte access, whose requests are not checked against the length.
- wr_highest_sector, 64-bit words of the bitmap and their allocation size: a bitmap is a set of chunk numbers.
- Flushes after a commit and failures of the flush.
- The 2,560 literals of the AES tables: the tables are defined by the equations in the comment before them, and the S-box by field inverse and affine map.
- The FULL_UNROLL variants of the cipher rounds.
- tb_flush, invalidation and changes of the address translation during a run of lookups; the two hash functions are arbitrary.
- Icount: 64-bit overflow of the counter, and the delay-slot adjustments for MIPS and SH4 in cpu_io_recompile.
- AlphaSearch.BuildIndex: requires a sorted table, as the opcode table is; the table's contents and the printing of operands are not modelled.
- BufferedFile.Output.Drain: is cut after a given number of turns, because the loop of the code need not end when the backend keeps freezing.
- SIZE_MAX clamping of the rate limit.
- insert_* and extract_* pairs for register fields, which move a fixed field and keep no state.
- bdrv_open, probing, snapshots, monitor output, MARSS simulation hooks and signal handling: they wire devices, commands and host signals together and move none of the data followed here.
