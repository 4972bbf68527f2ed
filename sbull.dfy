/**
 * The sbull block device: a fixed store of size * SBULL_SEC_SIZE bytes
 * (s_dev.data), served by a request function that walks each request's bios
 * and each bio's segments, bounds-checks every segment and copies it into or
 * out of the store.
 *
 * A segment is given by its length nbytes (bio_cur_bytes in the source, a
 * kernel helper taken here as an input) and the host buffer it is mapped to.
 * Machine words are unbounded: offsets are `nat`, with no wrap-around of the
 * `unsigned long` arithmetic.
 */
module Sbull {
  import opened Kernel

  const SBULL_SEC_SIZE: nat := 512
  const SBULL_SEC_NUM: nat := 200 * 1024
  const KERNEL_SECTOR_SIZE: nat := 512

  /** The bytes of the store, s_dev.size * SBULL_SEC_SIZE once sbull_init has run. */
  const CAPACITY: nat := SBULL_SEC_NUM * SBULL_SEC_SIZE

  /** bio_data_dir / rq_data_dir: Read copies from the store, Write copies to it. */
  datatype Dir = Read | Write

  /** One segment of a bio: its length and the host buffer __bio_kmap_atomic maps. */
  datatype Segment = Segment(nbytes: nat, buffer: seq<bv8>)

  /** A segment whose mapped host buffer holds the nbytes the copy reads or writes. */
  type MappedSegment = s: Segment | s.nbytes <= |s.buffer| witness Segment(0, [])

  /** A bio: its start sector bi_sector, direction, bi_size and segments. */
  datatype Bio = Bio(sector: nat, dir: Dir, size: nat, segments: seq<MappedSegment>)

  /** cmd_type: REQ_TYPE_FS or any other kind. */
  datatype CmdType = Fs | Other

  /** A request: its kind, blk_rq_pos, blk_rq_bytes and its bios. */
  datatype Request = Request(cmdType: CmdType, pos: nat, bytes: nat, bios: seq<Bio>)

  /** The store and a segment's host buffer after the segment's memcpy. */
  datatype Copy = Copy(store: seq<bv8>, host: seq<bv8>)

  /** The store and the host buffers (one per segment) after a bio's transfer. */
  datatype Transfer = Transfer(store: seq<bv8>, hosts: seq<seq<bv8>>)

  /** The store and the host buffers (one sequence per bio) after a request's transfer. */
  datatype RequestTransfer = RequestTransfer(store: seq<bv8>, hosts: seq<seq<seq<bv8>>>)

  /** How a request is ended: the error code (0 or -EIO), the bytes reported and the host buffers. */
  datatype Completion = Completion(error: int, bytes: nat, hosts: seq<seq<seq<bv8>>>)

  /** The store, the completions and whether the loop is left spinning, after draining a queue. */
  datatype QueueRun = QueueRun(store: seq<bv8>, completions: seq<Completion>, spinning: bool)

  /** A byte range of the store: offset and length. */
  datatype Window = Window(offset: nat, nbytes: nat)

  /** The host buffers of segments i.. of a bio, which no copy has touched. */
  function Buffers(segs: seq<MappedSegment>, i: nat): (hosts: seq<seq<bv8>>)
    requires i <= |segs|
    ensures |hosts| == |segs| - i
    ensures forall j :: i <= j < |segs| ==> hosts[j - i] == segs[j].buffer
    decreases |segs| - i
  {
    if i == |segs| then [] else [segs[i].buffer] + Buffers(segs, i + 1)
  }

  /** The host buffers of every segment of every bio of a request. */
  function BioBuffers(bios: seq<Bio>): (hosts: seq<seq<seq<bv8>>>)
    ensures |hosts| == |bios|
    ensures forall b :: 0 <= b < |bios| ==> hosts[b] == Buffers(bios[b].segments, 0)
    decreases |bios|
  {
    if bios == [] then [] else [Buffers(bios[0].segments, 0)] + BioBuffers(bios[1..])
  }

  /** Where segment i starts: the bio's start offset advanced by each earlier segment's nbytes. */
  function SegStart(start: nat, segs: seq<MappedSegment>, i: nat): (p: nat)
    requires i <= |segs|
    ensures start <= p
    decreases i
  {
    if i == 0 then start else SegStart(start, segs, i - 1) + segs[i - 1].nbytes
  }

  /**
   * The first segment, from segment j on, that does not fit in a store of
   * `cap` bytes when the bio starts at `start` (|segs| when every one fits).
   */
  function FitsFrom(start: nat, segs: seq<MappedSegment>, cap: nat, j: nat): (k: nat)
    requires j <= |segs|
    ensures j <= k <= |segs|
    ensures forall i {:trigger SegStart(start, segs, i)} :: j <= i < k ==> SegStart(start, segs, i) + segs[i].nbytes <= cap
    ensures k < |segs| ==> SegStart(start, segs, k) + segs[k].nbytes > cap
    decreases |segs| - j
  {
    if j == |segs| || SegStart(start, segs, j) + segs[j].nbytes > cap then j
    else FitsFrom(start, segs, cap, j + 1)
  }

  /**
   * The number of segments copied before the first one that does not fit in
   * a store of `cap` bytes (all of them when every one fits).
   */
  function Processed(start: nat, segs: seq<MappedSegment>, cap: nat): (k: nat)
    ensures k <= |segs|
    ensures forall i {:trigger SegStart(start, segs, i)} :: 0 <= i < k ==> SegStart(start, segs, i) + segs[i].nbytes <= cap
    ensures k < |segs| ==> SegStart(start, segs, k) + segs[k].nbytes > cap
  {
    FitsFrom(start, segs, cap, 0)
  }

  /** One in-range segment: memcpy into the store (Write) or out of it into the host buffer (Read). */
  function CopySegment(store: seq<bv8>, dir: Dir, offset: nat, seg: MappedSegment): (c: Copy)
    requires offset + seg.nbytes <= |store|
    ensures |c.store| == |store| && |c.host| == |seg.buffer|
    ensures dir == Read ==> c.store == store
    ensures dir == Write ==> c.host == seg.buffer
  {
    match dir
    case Write => Copy(Memcpy(store, offset, seg.buffer, 0, seg.nbytes), seg.buffer)
    case Read => Copy(store, Memcpy(seg.buffer, 0, store, offset, seg.nbytes))
  }

  /**
   * sbull_xfer_bio from segment i on, at store offset `offset`, the host
   * buffers of the segments before i being `done`: each segment is
   * bounds-checked against the store and copied, the offset advancing by its
   * nbytes; the first segment that does not fit ends the bio, leaving it and
   * every later segment's buffer untouched.
   */
  function XferSegments(store: seq<bv8>, dir: Dir, offset: nat, segs: seq<MappedSegment>, i: nat, done: seq<seq<bv8>>): (t: Transfer)
    requires i <= |segs|
    ensures |t.store| == |store| && |t.hosts| == |done| + (|segs| - i)
    decreases |segs| - i
  {
    if i == |segs| then Transfer(store, done)
    else if offset + segs[i].nbytes > |store| then Transfer(store, done + Buffers(segs, i))
    else
      var c := CopySegment(store, dir, offset, segs[i]);
      XferSegments(c.store, dir, offset + segs[i].nbytes, segs, i + 1, done + [c.host])
  }

  /** The start offset of a bio, bi_sector * KERNEL_SECTOR_SIZE. */
  function BioStart(bio: Bio): (p: nat)
    ensures p % KERNEL_SECTOR_SIZE == 0 && p / KERNEL_SECTOR_SIZE == bio.sector
  {
    bio.sector * KERNEL_SECTOR_SIZE
  }

  /** sbull_xfer_bio on a whole bio: its segments walked from BioStart with no buffer handled yet. */
  function XferBioSpec(store: seq<bv8>, bio: Bio): (t: Transfer)
    ensures |t.store| == |store| && |t.hosts| == |bio.segments|
  {
    XferSegments(store, bio.dir, BioStart(bio), bio.segments, 0, [])
  }

  /** The bios of a request transferred in order, each on the store the previous one left. */
  function XferBios(store: seq<bv8>, bios: seq<Bio>): (t: RequestTransfer)
    ensures |t.store| == |store| && |t.hosts| == |bios|
    decreases |bios|
  {
    if bios == [] then RequestTransfer(store, [])
    else
      var first := XferBioSpec(store, bios[0]);
      var rest := XferBios(first.store, bios[1..]);
      RequestTransfer(rest.store, [first.hosts] + rest.hosts)
  }

  /** The sum of bi_size over bios: what sbull_xfer_request reports. */
  function SumSizes(bios: seq<Bio>): (total: nat)
    ensures forall b :: 0 <= b < |bios| ==> bios[b].size <= total
    decreases |bios|
  {
    if bios == [] then 0 else bios[0].size + SumSizes(bios[1..])
  }

  /**
   * One pass of sbull_request's loop: a request that is not REQ_TYPE_FS is
   * ended with -EIO and the store is not touched; otherwise it is transferred
   * and ended successfully with the byte count sbull_xfer_request returns.
   */
  function HandleSpec(store: seq<bv8>, req: Request): (r: (seq<bv8>, Completion))
    ensures |r.0| == |store| && |r.1.hosts| == |req.bios|
    ensures req.cmdType != Fs ==> r.0 == store && r.1 == Completion(-EIO, 0, BioBuffers(req.bios))
    ensures req.cmdType == Fs ==> r.1.error == 0 && r.1.bytes == SumSizes(req.bios)
  {
    if req.cmdType != Fs then (store, Completion(-EIO, 0, BioBuffers(req.bios)))
    else
      var t := XferBios(store, req.bios);
      (t.store, Completion(0, SumSizes(req.bios), t.hosts))
  }

  /**
   * sbull_request over a queue of fetched requests.  After ending a non-FS
   * request the source `continue`s without fetching another one, so the loop
   * never gets past it: the run stops there with `spinning` set.
   */
  function RunQueue(store: seq<bv8>, queue: seq<Request>): (r: QueueRun)
    ensures |r.store| == |store| && |r.completions| <= |queue|
    decreases |queue|
  {
    if queue == [] then QueueRun(store, [], false)
    else
      var (store', c) := HandleSpec(store, queue[0]);
      if queue[0].cmdType != Fs then QueueRun(store', [c], true)
      else
        var rest := RunQueue(store', queue[1..]);
        QueueRun(rest.store, [c] + rest.completions, rest.spinning)
  }

  /**
   * sbull_transfer, the unused whole-request variant, as its range check:
   * offset = blk_rq_pos * 512 and nbytes = blk_rq_bytes * 512 (a byte count
   * scaled again as if it were sectors); the request is ignored when that
   * window ends past the store.
   */
  function TransferWindow(req: Request, cap: nat): (w: Option<Window>)
    ensures w.Some? <==> req.pos * KERNEL_SECTOR_SIZE + req.bytes * KERNEL_SECTOR_SIZE <= cap
    ensures w.Some? ==> w.value.offset + w.value.nbytes <= cap
    ensures w.Some? ==> w.value.offset == req.pos * KERNEL_SECTOR_SIZE
    ensures w.Some? ==> w.value.nbytes == req.bytes * KERNEL_SECTOR_SIZE
  {
    var offset := req.pos * KERNEL_SECTOR_SIZE;
    var nbytes := req.bytes * KERNEL_SECTOR_SIZE;
    if offset + nbytes > cap then None else Some(Window(offset, nbytes))
  }

  /** The device s_dev: its size in sectors and its store. */
  class SbullDev {
    const size: nat
    const data: array<bv8>

    ghost predicate Valid()
      reads this
    {
      data.Length == size * SBULL_SEC_SIZE
    }

    /** The data-path part of sbull_init: SBULL_SEC_NUM sectors of SBULL_SEC_SIZE bytes. */
    constructor ()
      ensures Valid() && fresh(data)
      ensures size == SBULL_SEC_NUM && data.Length == CAPACITY
    {
      size := SBULL_SEC_NUM;
      data := new bv8[SBULL_SEC_NUM * SBULL_SEC_SIZE];
    }

    /** The memcpy of one in-range segment, into the store or out of it. */
    method CopySegmentInPlace(dir: Dir, offset: nat, seg: MappedSegment) returns (host: seq<bv8>)
      requires offset + seg.nbytes <= data.Length
      modifies data
      ensures data[..] == CopySegment(old(data[..]), dir, offset, seg).store
      ensures host == CopySegment(old(data[..]), dir, offset, seg).host
    {
      if dir == Write {
        CopyInto(data, offset, seg.buffer, 0, seg.nbytes);
        host := seg.buffer;
      } else {
        host := Memcpy(seg.buffer, 0, data[..], offset, seg.nbytes);
      }
    }

    /** sbull_xfer_bio: the segment loop, copying in place; returns the host buffers afterwards. */
    method XferBio(bio: Bio) returns (hosts: seq<seq<bv8>>)
      requires Valid()
      modifies data
      ensures data[..] == XferBioSpec(old(data[..]), bio).store
      ensures hosts == XferBioSpec(old(data[..]), bio).hosts
    {
      var segs := bio.segments;
      ghost var spec := XferBioSpec(data[..], bio);
      var offset: nat := bio.sector * KERNEL_SECTOR_SIZE;
      var i := 0;
      hosts := [];
      while i < |segs|
        invariant i <= |segs|
        invariant spec == XferSegments(data[..], bio.dir, offset, segs, i, hosts)
      {
        var seg := segs[i];
        if offset + seg.nbytes > size * SBULL_SEC_SIZE {
          // "exceed range request, ignore..."
          hosts := hosts + Buffers(segs, i);
          return;
        }
        var host := CopySegmentInPlace(bio.dir, offset, seg);
        hosts := hosts + [host];
        offset := offset + seg.nbytes;
        i := i + 1;
      }
    }

    /** sbull_xfer_request: every bio in order; the count is the sum of bi_size. */
    method XferRequest(req: Request) returns (retval: nat, hosts: seq<seq<seq<bv8>>>)
      requires Valid()
      modifies data
      ensures retval == SumSizes(req.bios)
      ensures data[..] == XferBios(old(data[..]), req.bios).store
      ensures hosts == XferBios(old(data[..]), req.bios).hosts
    {
      var bios := req.bios;
      var b := 0;
      retval := 0;
      hosts := [];
      while b < |bios|
        invariant b <= |bios|
        invariant retval + SumSizes(bios[b..]) == SumSizes(bios)
        invariant
          var rest := XferBios(data[..], bios[b..]);
          XferBios(old(data[..]), bios) == RequestTransfer(rest.store, hosts + rest.hosts)
      {
        assert bios[b..][0] == bios[b] && bios[b..][1..] == bios[b + 1..];
        var h := XferBio(bios[b]);
        retval := retval + bios[b].size;
        hosts := hosts + [h];
        b := b + 1;
      }
    }

    /** One pass of sbull_request's loop for a fetched request. */
    method HandleRequest(req: Request) returns (c: Completion)
      requires Valid()
      modifies data
      ensures (data[..], c) == HandleSpec(old(data[..]), req)
    {
      if req.cmdType != Fs {
        // "skip non-fs request": __blk_end_request_all(req, -EIO)
        return Completion(-EIO, 0, BioBuffers(req.bios));
      }
      var bytes, hosts := XferRequest(req);
      c := Completion(0, bytes, hosts);
    }

    /** sbull_request: handles the fetched requests in order until the queue is empty or the loop spins. */
    method ProcessQueue(queue: seq<Request>) returns (completions: seq<Completion>, spinning: bool)
      requires Valid()
      modifies data
      ensures QueueRun(data[..], completions, spinning) == RunQueue(old(data[..]), queue)
    {
      var q := 0;
      completions := [];
      while q < |queue|
        invariant q <= |queue|
        invariant
          var rest := RunQueue(data[..], queue[q..]);
          RunQueue(old(data[..]), queue) == QueueRun(rest.store, completions + rest.completions, rest.spinning)
      {
        assert queue[q..][0] == queue[q] && queue[q..][1..] == queue[q + 1..];
        var c := HandleRequest(queue[q]);
        completions := completions + [c];
        if queue[q].cmdType != Fs {
          return completions, true;
        }
        q := q + 1;
      }
      return completions, false;
    }
  }
}
