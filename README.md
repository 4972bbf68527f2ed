# scull and sbull data paths in Dafny

This project models the data paths of two small Linux drivers and proves
properties of them.

- **scull** (`scull/scull.c`) is a character device. It keeps a stream of
  bytes in page-size blocks on a circular, doubly-linked list. The header
  node owns the first page. The global `s_dev` counts the appended nodes
  (`page_count`) and the bytes written since the last reset (`cur_size`).
  `scull_write` resets the buffer when it starts at offset 0. It appends at
  most one page per call and always writes into the tail node. `scull_read`
  walks `index` steps from the header. Each call copies at most up to the end
  of the current page.
- **sbull** (`sbull/sbull.c`) is a RAM block device. Its store holds
  `SBULL_SEC_NUM` sectors of `SBULL_SEC_SIZE` bytes. The request function
  ends requests that are not `REQ_TYPE_FS` with `-EIO`. It transfers the
  others bio by bio and segment by segment. Each segment is bounds-checked
  and then copied into or out of the store. The first segment out of range
  ends its bio.

Modules:

- `Kernel` (`kernel.dfy`): error numbers, `Option` for user pointers that may
  be NULL, and `memcpy`/`copy_to_user`/`copy_from_user`. A copy is
  `Memcpy` on byte sequences, or `CopyInto` on an array.
- `Scull` (`scull.dfy`) is in two parts:
  - pure specification functions over the abstract state `ScullState` (the
    page of every list node in list order, and `cur_size`);
  - the class `ScullDev`, whose methods update the device fields in place.
    `ResetBuffer`, `GetWritePage`, `Read` and `Write` are each proved equal
    to a specification function. `GetReadPage` has a closed-form contract
    instead: it fails exactly past `page_count` and otherwise reaches list
    position `idx`. `Next` is the list's `next` link, with no specification
    function of its own.
- `ScullLaws` (`scull_laws.dfy`): properties that span several calls. A writer
  loop starting at offset 0 stores its data. Reads return what was written.
  It also covers the reset law, page growth, and the places where reads do not
  behave like reads of a file.
- `Sbull` (`sbull.dfy`) is also in two parts:
  - recursive specification functions for a bio's segment walk, a request and
    the request queue;
  - the class `SbullDev`, whose methods copy into its `array<bv8>` store in
    place. Each method is proved against its specification function.
- `SbullLaws` (`sbull_laws.dfy`): where each segment lands, the frame of a
  bio, the round trip of a write bio then a read bio, the abort at the first
  out-of-range segment, the reported byte count, and how the request loop
  behaves on a queue.

The model follows the code where the drivers do not behave as a file or a
block device would be expected to:

- A scull read is not clamped to `cur_size`. It copies up to the end of the
  page even past the data (`ScullLaws.ReadPastEndCopies`).
- `page_count` does not count the header's page. Writing `PAGE_SIZE * n + 1`
  bytes gives `page_count == n`, not `n + 1` (`ScullLaws.Growth`).
- A read whose page index is past `page_count` fails with `-EFAULT`. At the
  end of data that fills its last page exactly, this happens instead of
  returning 0 (`ScullLaws.ReadAtPageAlignedEndFaults`).
- A write appends a page only when the page index exceeds `page_count`, and
  it always copies into the tail node.
- An out-of-range segment abandons only its own bio. The later bios of the
  request are still transferred.
- The request still reports the full `bi_size` of every bio, whatever was
  copied (`SbullLaws.ReportsAbortedBytes`).
- After ending a non-FS request with `-EIO`, the request loop does not fetch
  another request, so it never moves past that request (`SbullLaws.QueueSpins`).

## Model

| member | source | states |
|---|---|---|
| Kernel.Memcpy | scull/scull.c:179 | memcpy/copy_to_user/copy_from_user: the destination keeps its length. What the copy holds is stated by `MemcpyRanges` and `MemcpyAt` |
| Kernel.MemcpyRanges | sbull/sbull.c:80-83 | a copy leaves the bytes before and after the destination range as they were, and the range holds the source range |
| Kernel.MemcpyAt | sbull/sbull.c:80-83 | byte i of a copy comes from the source inside the destination range and from the destination outside it |
| Kernel.CopyInto | sbull/sbull.c:81 | memcpy into an array leaves it holding exactly the `Memcpy` of its old contents |
| Scull.PageIndex | scull/scull.c:166 | the page index of an offset is the page whose byte range contains it |
| Scull.PagePos | scull/scull.c:167 | the in-page position is below the page size, and index * page size + position gives back the offset |
| Scull.CopySize | scull/scull.c:176-177 | one call copies no more than requested and never past the end of the page, and it copies all of the request when the request fits in the page |
| Scull.ZeroPage | scull/scull.c:106 | a new page is PAGE_SIZE zero bytes |
| Scull.Reset | scull/scull.c:33-49 | a reset keeps only the header's page, with its old bytes, and zeroes cur_size and page_count |
| Scull.WritePage | scull/scull.c:100-129 | get_write_page fails exactly when the index exceeds page_count and allocation fails. Otherwise it appends one zeroed page when the index exceeds page_count, keeps every existing page, and returns the tail node |
| Scull.WriteSpec | scull/scull.c:192-230 | NULL data gives -EINVAL and no change. -ENOMEM happens exactly when a write at a non-zero offset needs a page and allocation fails. A write at offset 0 resets first: it never fails, copies CopySize bytes from position 0, and leaves cur_size equal to that count and page_count 0. On success offset grows by the count. At a non-zero offset cur_size grows by it too, and a page is added exactly when the page index exceeds page_count |
| Scull.WriteSpecStores | scull/scull.c:204-222 | after a successful write, the tail page holds the data from the in-page position on. Every other page, and every other byte of the tail page, is as the (reset, at offset 0) device held it, and an appended page is zero outside the copied range |
| Scull.ReadSpec | scull/scull.c:149-185 | NULL dest gives -EINVAL, an offset past cur_size gives 0, and a page index past page_count gives -EFAULT, all changing nothing. Otherwise dest starts with CopySize bytes of page `index` from the in-page position, keeps the rest of its bytes, and the offset advances by the count |
| Scull.ScullDev.constructor | scull/scull.c:70-75 | initialisation gives one zeroed header page and zero page_count and cur_size |
| Scull.ScullDev.Next | scull/scull.c:143-144 | following `next` stays in the list and reaches the header exactly from the last node |
| Scull.ScullDev.ResetBuffer | scull/scull.c:33-49 | the freeing loop leaves the state `Reset` describes |
| Scull.ScullDev.GetWritePage | scull/scull.c:112-129 | the in-place list growth yields the state and node `WritePage` describes, and nothing changes on failure |
| Scull.ScullDev.GetReadPage | scull/scull.c:131-147 | the walk fails exactly past page_count and otherwise reaches list position idx, position 0 being the header |
| Scull.ScullDev.Read | scull/scull.c:149-185 | the result, new offset and user buffer are those `ReadSpec` gives, and the device is not modified |
| Scull.ScullDev.Write | scull/scull.c:192-230 | the return value, new offset and new device state are those `WriteSpec` gives |
| ScullLaws.WriteAll | scull/scull.c:225-229 | a writer that keeps calling write until its data is stored ends at offset + length |
| ScullLaws.WriteStepExtends | scull/scull.c:204-229 | one write call at offset k inside the data stores at least one byte and extends the stored prefix by exactly the bytes it returns |
| ScullLaws.WriteAllStep | scull/scull.c:204-229 | one turn of the writer loop inside the data stores m > 0 more bytes, and the loop continues from offset k + m on the state it leaves |
| ScullLaws.WriteAllDone | scull/scull.c:225-229 | when the offset reaches the end of the data, the loop stops with the device holding all of it |
| ScullLaws.WriteAllMore | scull/scull.c:192-230 | the loop resumed at an offset strictly inside the data stores all of the data |
| ScullLaws.WriteAllFrom | scull/scull.c:192-230 | the writer loop resumed at offset k stores all of the data |
| ScullLaws.WriteAllStores | scull/scull.c:203-205 | writing non-empty data from offset 0 leaves exactly that data, with cur_size equal to its length and only the pages it needs, whatever was there before |
| ScullLaws.ReadBack | scull/scull.c:162-184 | after such a write, a read at an offset inside the data copies CopySize bytes, and every copied byte that lies inside the data is the byte written there, even when the read runs past the end of the data |
| ScullLaws.RoundTrip | scull/scull.c:149-230 | writing data from offset 0 and then reading at an offset inside it returns CopySize bytes, of which every one inside the data is the byte written there |
| ScullLaws.ReadPageAfterShortWrite | scull/scull.c:176-184 | after a 100-byte write from offset 0, read(0, 4096) copies 4096 bytes and the first 100 are the data |
| ScullLaws.ResetLaw | scull/scull.c:204-205 | two writer passes from offset 0 leave only the second data, with (length - 1) / PAGE_SIZE appended pages |
| ScullLaws.Growth | scull/scull.c:116-123 | PAGE_SIZE * n + 1 bytes written from offset 0 give page_count n and n + 1 pages in the list |
| ScullLaws.ReadPastEndCopies | scull/scull.c:162-177 | at the end of data that does not fill its last page, a read still copies bytes and moves the offset past cur_size |
| ScullLaws.ReadAtPageAlignedEndFaults | scull/scull.c:137-141 | at the end of data that fills its last page, a read returns -EFAULT |
| ScullLaws.CopyStaysInPage | scull/scull.c:176-177 | every byte one call copies lies in the page of its starting offset, at consecutive positions |
| ScullLaws.RewriteGrowsCurSize | scull/scull.c:116-226 | a write at a non-zero offset whose page index is at most page_count adds CopySize bytes to cur_size and no page, and the state it leaves meets the same condition again |
| ScullLaws.RewriteTwice | scull/scull.c:225-226 | two equal writes at such an offset add twice the count to cur_size and leave page_count as it was |
| Sbull.SegStart | sbull/sbull.c:84 | no segment starts before the bio's start offset |
| Sbull.BioStart | sbull/sbull.c:69 | a bio starts at a KERNEL_SECTOR_SIZE-aligned offset whose sector number is bi_sector |
| Sbull.XferSegments | sbull/sbull.c:64-87 | the segment walk keeps the store's length and gives one host buffer per segment. Where each byte ends up is stated by the `SbullLaws` lemmas |
| Sbull.XferBioSpec | sbull/sbull.c:64-87 | sbull_xfer_bio keeps the store's length and gives one host buffer per segment of the bio |
| Sbull.XferBios | sbull/sbull.c:89-100 | the bios of a request transferred in order keep the store's length and give one buffer sequence per bio |
| Sbull.SumSizes | sbull/sbull.c:92-99 | the count sbull_xfer_request returns is at least the bi_size of every bio |
| Sbull.RunQueue | sbull/sbull.c:102-121 | the request loop keeps the store's length and ends at most one request per queued request. Its stopping behaviour is stated by `QueueSpins`, `QueueStops` and `QueueCompletions` |
| Sbull.Buffers | sbull/sbull.c:75-79 | the buffers of the segments from i on are passed through unchanged, one per segment |
| Sbull.Processed | sbull/sbull.c:75-79 | every segment before the k-th fits in the store at its start offset, and the k-th, when there is one, does not |
| Sbull.CopySegment | sbull/sbull.c:80-83 | a read segment leaves the store as it was, and a write segment leaves the host buffer as it was |
| Sbull.HandleSpec | sbull/sbull.c:110-118 | a non-FS request is ended with -EIO and zero bytes, its buffers untouched and the store unchanged. An FS request is ended with 0 and the sum of bi_size |
| Sbull.TransferWindow | sbull/sbull.c:46-55 | sbull_transfer accepts exactly when pos * 512 + bytes * 512 fits in the store, and then its window is at pos * 512 and is bytes * 512 long |
| Sbull.SbullDev.constructor | sbull/sbull.c:169 | the store is size * SBULL_SEC_SIZE bytes, with size = SBULL_SEC_NUM |
| Sbull.SbullDev.CopySegmentInPlace | sbull/sbull.c:80-83 | the in-place memcpy leaves the store and host buffer `CopySegment` describes |
| Sbull.SbullDev.XferBio | sbull/sbull.c:64-87 | the segment loop leaves the store and host buffers that the recursive segment walk describes |
| Sbull.SbullDev.XferRequest | sbull/sbull.c:89-100 | the bio loop returns the sum of bi_size and leaves the store and buffers of the bios transferred in order |
| Sbull.SbullDev.HandleRequest | sbull/sbull.c:110-118 | one pass of the request loop leaves the store and completion `HandleSpec` describes |
| Sbull.SbullDev.ProcessQueue | sbull/sbull.c:102-121 | the request loop over a queue gives the store, completions and spinning flag that `RunQueue` describes |
| SbullLaws.SegStartIsPrefixSum | sbull/sbull.c:69-84 | segment i starts at bi_sector * 512 plus the nbytes of every segment before it |
| SbullLaws.LengthsSnoc | sbull/sbull.c:84 | the total length of segments grows by a segment's nbytes when that segment is appended |
| SbullLaws.SegStartMono | sbull/sbull.c:84 | segment start offsets never decrease along a bio |
| SbullLaws.KeepsDone | sbull/sbull.c:71-86 | the segment walk never changes the buffers of segments already handled |
| SbullLaws.ReadKeepsStore | sbull/sbull.c:82-83 | a read bio leaves the store unchanged |
| SbullLaws.XferFrame | sbull/sbull.c:75-84 | a bio changes no store byte outside the range covered by its copied segments |
| SbullLaws.WriteStoresSegment | sbull/sbull.c:80-81 | after a write bio, byte k of each copied segment is at that segment's start + k |
| SbullLaws.ReadFillsBuffer | sbull/sbull.c:82-83 | after a read bio, each copied segment's buffer holds the store bytes of its range, followed by its own old bytes |
| SbullLaws.UntouchedBuffers | sbull/sbull.c:75-81 | a write bio leaves every host buffer unchanged, and any bio leaves the buffers from the first out-of-range segment on unchanged |
| SbullLaws.SameStarts | sbull/sbull.c:69-84 | segment start offsets depend only on the segment lengths |
| SbullLaws.SameFits | sbull/sbull.c:75-79 | so does the number of segments copied |
| SbullLaws.WriteThenRead | sbull/sbull.c:80-84 | a write bio followed by a read bio at the same sector with the same segment lengths fills each copied read buffer with the bytes written for it |
| SbullLaws.AbortsAtFirstOutOfRange | sbull/sbull.c:75-79 | with segments [in range, out of range, any], only the first is copied: the other buffers are untouched, and the store changes only in the first segment's range |
| SbullLaws.ReadRequestKeepsStore | sbull/sbull.c:94-98 | a request whose bios all read leaves the store unchanged |
| SbullLaws.ReportsAbortedBytes | sbull/sbull.c:94-99 | a request whose only bio aborts at its first segment copies nothing, yet is ended successfully with the full bi_size |
| SbullLaws.QueueSpins | sbull/sbull.c:108-120 | the request loop spins exactly when the queue holds a non-FS request, and otherwise ends every request |
| SbullLaws.QueueStops | sbull/sbull.c:111-115 | the requests ended before the loop spins are all FS requests, and the last one ended is a non-FS request, ended with -EIO |
| SbullLaws.QueueCompletions | sbull/sbull.c:117-119 | every FS request the loop reaches is ended with 0 and the sum of its bi_size |
| SbullLaws.TransferRejectsLastSector | sbull/sbull.c:48-51 | sbull_transfer ignores a request for the last sector of the store, because it scales the byte count by 512 again |

## Left out

- Module plumbing is not modelled: `scull_init`/`scull_exit`, `sbull_init`/`sbull_exit`, `scull_setup_cdev`, and device, proc and gendisk registration. Only their data-path effects appear, as the two constructors.
- `scull_unlocked_ioctl`, `scull_llseek`, `scull_open`/`scull_release` and `sbull_open`/`sbull_release`/`sbull_ioctl` are left out. They are a command switch over the major/minor globals and stubs returning constants.
- The wait in `scull_read` (`wait_event_interruptible`) and `wake_up_interruptible` are left out. The source ignores the wait's result, so the read is modelled in whatever state it runs in. The blocking behaviour itself is concurrency and is not modelled.
- `sbull_lock`, `blk_fetch_request` and the spinlock around the request function are left out. The queue is a sequence of already fetched requests, handled one after another.
- Faults of `copy_to_user`/`copy_from_user` are not modelled. A copy always copies every byte, and the fault only prints a message in the source anyway. A user pointer is `Option<seq<bv8>>`, with None for NULL.
- `kmap`/`kunmap` of bio pages are left out.
- A segment's host buffer is a sequence at least nbytes long (`MappedSegment`). A shorter mapping would be a memory fault in the source.
- `bio_cur_bytes` is a kernel helper that is not part of this model. Each segment's nbytes is an input.
- Allocation failure is a boolean input, `allocOk`.
- Scull.WritePage: create_page is folded into it. When kmalloc succeeds but get_zeroed_page fails, the source returns a node with a NULL page. The model has no NULL page and treats that case as a failed allocation.
- Scull.Reset: the source frees each node while `list_for_each` still walks it, and it never re-initialises the header's links. The model is the evident intent: drop every appended page and keep the header's page.
- ScullLaws.WriteAllStores: it holds of the code only while no reset has freed an appended node, which a write from offset 0 over a state with appended pages does. After such a reset that freed appended nodes, the header's links still point at them, so the next write at offset 0 copies into the freed `header->prev` (scull/scull.c:128) while reads of page 0 return the header page.
- ScullLaws.ResetLaw: for the same reason it holds of the code only when no node was appended before the second pass, that is, when the start state has none and the first pass fits in one page.
- ScullLaws.RoundTrip: it inherits the same dependency on the intended reset from `WriteAllStores`.
- ScullLaws.ReadPageAfterShortWrite: it inherits the same dependency on the intended reset from `WriteAllStores`.
- PAGE_SIZE is fixed at 4096, the usual configuration.
- Machine words are unbounded. The `size_t`/`unsigned long` offset arithmetic never wraps, and the `(long)` and `int pages` truncations in scull are not modelled.
- `__blk_end_request` is taken to complete the whole request, and the loop then fetches the next one. Partial completion, where the block layer keeps the request, is not modelled.
- Sbull.TransferWindow: `sbull_transfer` is modelled as its range check only. Its memcpy uses `req->buffer` and is unreachable: no caller exists.
- Concurrent readers and writers of the scull page list are not modelled.
