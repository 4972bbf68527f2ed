/**
 * Properties of sbull's transfer path: where each segment lands, what a bio
 * changes in the store and what it leaves alone, what a request reports, and
 * how the request loop behaves on a queue.
 */
module SbullLaws {
  import opened Kernel
  import opened Sbull

  /** Segment starts never decrease along a bio. */
  lemma {:induction false} SegStartMono(start: nat, segs: seq<MappedSegment>, i: nat, j: nat)
    requires i <= j <= |segs|
    ensures SegStart(start, segs, i) <= SegStart(start, segs, j)
    decreases j - i
  {
    if i < j {
      SegStartMono(start, segs, i, j - 1);
    }
  }

  /** The total length of a sequence of segments, summed from the front. */
  function Lengths(segs: seq<MappedSegment>): nat
    decreases |segs|
  {
    if segs == [] then 0 else segs[0].nbytes + Lengths(segs[1..])
  }

  /** Lengths of a sequence extended by one segment. */
  lemma {:induction false} LengthsSnoc(segs: seq<MappedSegment>, x: MappedSegment)
    ensures Lengths(segs + [x]) == Lengths(segs) + x.nbytes
    decreases |segs|
  {
    if segs != [] {
      assert (segs + [x])[1..] == segs[1..] + [x];
      LengthsSnoc(segs[1..], x);
    } else {
      assert [x][1..] == [];
    }
  }

  /**
   * Segment i starts at the bio's start plus the lengths of the segments
   * before it: the offset advanced by each earlier segment's nbytes.
   */
  lemma {:induction false} SegStartIsPrefixSum(start: nat, segs: seq<MappedSegment>, i: nat)
    requires i <= |segs|
    ensures SegStart(start, segs, i) == start + Lengths(segs[..i])
    decreases i
  {
    if i == 0 {
      assert segs[..0] == [];
    } else {
      SegStartIsPrefixSum(start, segs, i - 1);
      assert segs[..i] == segs[..i - 1] + [segs[i - 1]];
      LengthsSnoc(segs[..i - 1], segs[i - 1]);
    }
  }

  /** The end of the copied part of a bio: where the first segment not copied would start. */
  function CopiedEnd(store: seq<bv8>, start: nat, segs: seq<MappedSegment>): nat
  {
    SegStart(start, segs, Processed(start, segs, |store|))
  }

  /** The host buffers of the segments already handled stay as they are. */
  lemma {:induction false} KeepsDone(store: seq<bv8>, dir: Dir, offset: nat, segs: seq<MappedSegment>, j: nat, done: seq<seq<bv8>>, q: nat)
    requires j <= |segs| && q < |done|
    ensures XferSegments(store, dir, offset, segs, j, done).hosts[q] == done[q]
    decreases |segs| - j
  {
    if j < |segs| && offset + segs[j].nbytes <= |store| {
      var c := CopySegment(store, dir, offset, segs[j]);
      KeepsDone(c.store, dir, offset + segs[j].nbytes, segs, j + 1, done + [c.host], q);
    }
  }

  /** A read-direction bio leaves the store as it was. */
  lemma {:induction false} ReadKeepsStore(store: seq<bv8>, offset: nat, segs: seq<MappedSegment>, j: nat, done: seq<seq<bv8>>)
    requires j <= |segs|
    ensures XferSegments(store, Read, offset, segs, j, done).store == store
    decreases |segs| - j
  {
    if j < |segs| && offset + segs[j].nbytes <= |store| {
      var c := CopySegment(store, Read, offset, segs[j]);
      ReadKeepsStore(store, offset + segs[j].nbytes, segs, j + 1, done + [c.host]);
    }
  }

  /**
   * Frame: a bio changes no store byte outside the range its copied segments
   * cover, from the start of segment j to CopiedEnd.
   */
  lemma {:induction false} XferFrame(store: seq<bv8>, dir: Dir, start: nat, segs: seq<MappedSegment>, j: nat, done: seq<seq<bv8>>, p: nat)
    requires j <= Processed(start, segs, |store|) && p < |store|
    requires p < SegStart(start, segs, j) || CopiedEnd(store, start, segs) <= p
    ensures XferSegments(store, dir, SegStart(start, segs, j), segs, j, done).store[p] == store[p]
    decreases |segs| - j
  {
    var offset := SegStart(start, segs, j);
    if j < |segs| && offset + segs[j].nbytes <= |store| {
      var c := CopySegment(store, dir, offset, segs[j]);
      SegStartMono(start, segs, j + 1, Processed(start, segs, |store|));
      if dir == Write {
        MemcpyAt(store, offset, segs[j].buffer, 0, segs[j].nbytes, p);
      }
      XferFrame(c.store, dir, start, segs, j + 1, done + [c.host], p);
    }
  }

  /**
   * A write-direction bio leaves each copied segment's range of the store
   * holding that segment's bytes: byte k of segment i is at its start + k.
   */
  lemma {:induction false} WriteStoresSegment(store: seq<bv8>, start: nat, segs: seq<MappedSegment>, j: nat, done: seq<seq<bv8>>, i: nat, k: nat)
    requires j <= i < Processed(start, segs, |store|) && k < segs[i].nbytes
    ensures
      var p := SegStart(start, segs, i);
      && p + k < |store|
      && XferSegments(store, Write, SegStart(start, segs, j), segs, j, done).store[p + k] == segs[i].buffer[k]
    decreases |segs| - j
  {
    var offset := SegStart(start, segs, j);
    assert offset + segs[j].nbytes <= |store|;
    var c := CopySegment(store, Write, offset, segs[j]);
    if i == j {
      MemcpyAt(store, offset, segs[j].buffer, 0, segs[j].nbytes, offset + k);
      XferFrame(c.store, Write, start, segs, j + 1, done + [c.host], offset + k);
    } else {
      WriteStoresSegment(c.store, start, segs, j + 1, done + [c.host], i, k);
    }
  }

  /**
   * After a read-direction bio, the buffer of each copied segment holds the
   * store's bytes of the segment's range, followed by its own old bytes.
   */
  lemma {:induction false} ReadFillsBuffer(store: seq<bv8>, start: nat, segs: seq<MappedSegment>, j: nat, done: seq<seq<bv8>>, i: nat, k: nat)
    requires j <= i < Processed(start, segs, |store|) && k < |segs[i].buffer|
    ensures
      var h := XferSegments(store, Read, SegStart(start, segs, j), segs, j, done).hosts[|done| + (i - j)];
      var p := SegStart(start, segs, i);
      && |h| == |segs[i].buffer|
      && (k < segs[i].nbytes ==> p + k < |store| && h[k] == store[p + k])
      && (segs[i].nbytes <= k ==> h[k] == segs[i].buffer[k])
    decreases |segs| - j
  {
    var offset := SegStart(start, segs, j);
    assert offset + segs[j].nbytes <= |store|;
    var c := CopySegment(store, Read, offset, segs[j]);
    if i == j {
      KeepsDone(c.store, Read, offset + segs[j].nbytes, segs, j + 1, done + [c.host], |done|);
      MemcpyAt(segs[j].buffer, 0, store, offset, segs[j].nbytes, k);
    } else {
      ReadFillsBuffer(c.store, start, segs, j + 1, done + [c.host], i, k);
    }
  }

  /**
   * The buffers a bio leaves untouched: those of a write-direction bio, and
   * those of the first segment out of range and every later one.
   */
  lemma {:induction false} UntouchedBuffers(store: seq<bv8>, dir: Dir, start: nat, segs: seq<MappedSegment>, j: nat, done: seq<seq<bv8>>, i: nat)
    requires j <= Processed(start, segs, |store|) && j <= i < |segs|
    requires dir == Write || Processed(start, segs, |store|) <= i
    ensures XferSegments(store, dir, SegStart(start, segs, j), segs, j, done).hosts[|done| + (i - j)] == segs[i].buffer
    decreases |segs| - j
  {
    var offset := SegStart(start, segs, j);
    if offset + segs[j].nbytes <= |store| {
      var c := CopySegment(store, dir, offset, segs[j]);
      if i == j {
        KeepsDone(c.store, dir, offset + segs[j].nbytes, segs, j + 1, done + [c.host], |done|);
      } else {
        UntouchedBuffers(c.store, dir, start, segs, j + 1, done + [c.host], i);
      }
    }
  }

  /** Segment starts depend only on the segments' lengths. */
  lemma {:induction false} SameStarts(start: nat, a: seq<MappedSegment>, b: seq<MappedSegment>, i: nat)
    requires |a| == |b| && forall j :: 0 <= j < |a| ==> a[j].nbytes == b[j].nbytes
    requires i <= |a|
    ensures SegStart(start, a, i) == SegStart(start, b, i)
    decreases i
  {
    if i > 0 {
      SameStarts(start, a, b, i - 1);
    }
  }

  /** So does the number of segments copied. */
  lemma {:induction false} SameFits(start: nat, a: seq<MappedSegment>, b: seq<MappedSegment>, cap: nat, j: nat)
    requires |a| == |b| && forall i :: 0 <= i < |a| ==> a[i].nbytes == b[i].nbytes
    requires j <= |a|
    ensures FitsFrom(start, a, cap, j) == FitsFrom(start, b, cap, j)
    decreases |a| - j
  {
    if j < |a| {
      SameStarts(start, a, b, j);
      SameFits(start, a, b, cap, j + 1);
    }
  }

  /**
   * Round trip: after a write-direction bio, a read-direction bio at the same
   * sector with segments of the same lengths fills each buffer that is copied
   * with the bytes the write stored for that segment: byte k of the read's
   * buffer i is byte k of the write's buffer i.
   */
  lemma WriteThenRead(store: seq<bv8>, w: Bio, r: Bio, i: nat, k: nat)
    requires w.dir == Write && r.dir == Read && w.sector == r.sector
    requires |w.segments| == |r.segments|
    requires forall j :: 0 <= j < |w.segments| ==> w.segments[j].nbytes == r.segments[j].nbytes
    requires i < Processed(BioStart(w), w.segments, |store|) && k < w.segments[i].nbytes
    ensures
      var h := XferBioSpec(XferBioSpec(store, w).store, r).hosts[i];
      |h| == |r.segments[i].buffer| && h[k] == w.segments[i].buffer[k]
  {
    var start := BioStart(w);
    var written := XferBioSpec(store, w).store;
    SameStarts(start, w.segments, r.segments, i);
    SameFits(start, w.segments, r.segments, |store|, 0);
    WriteStoresSegment(store, start, w.segments, 0, [], i, k);
    ReadFillsBuffer(written, start, r.segments, 0, [], i, k);
  }

  /**
   * A bio whose segments [s1, s2, s3] have s1 in range and s2 out of range
   * copies s1 only: s2's and s3's buffers are untouched and, for a write,
   * the store changes only in s1's range, which holds s1's bytes.
   */
  lemma AbortsAtFirstOutOfRange(store: seq<bv8>, dir: Dir, offset: nat, s1: MappedSegment, s2: MappedSegment, s3: MappedSegment)
    requires offset + s1.nbytes <= |store| < offset + s1.nbytes + s2.nbytes
    ensures
      var t := XferSegments(store, dir, offset, [s1, s2, s3], 0, []);
      && Processed(offset, [s1, s2, s3], |store|) == 1
      && t.hosts[1] == s2.buffer && t.hosts[2] == s3.buffer
      && (dir == Write ==> t.store == Memcpy(store, offset, s1.buffer, 0, s1.nbytes))
      && (dir == Read ==> t.store == store)
  {
    var segs := [s1, s2, s3];
    assert SegStart(offset, segs, 1) == offset + s1.nbytes;
    assert FitsFrom(offset, segs, |store|, 1) == 1;
    UntouchedBuffers(store, dir, offset, segs, 0, [], 1);
    UntouchedBuffers(store, dir, offset, segs, 0, [], 2);
  }

  /** A request whose bios are all read-direction leaves the store as it was. */
  lemma {:induction false} ReadRequestKeepsStore(store: seq<bv8>, bios: seq<Bio>)
    requires forall b :: 0 <= b < |bios| ==> bios[b].dir == Read
    ensures XferBios(store, bios).store == store
    decreases |bios|
  {
    if bios != [] {
      ReadKeepsStore(store, BioStart(bios[0]), bios[0].segments, 0, []);
      ReadRequestKeepsStore(store, bios[1..]);
    }
  }

  /**
   * The reported count ignores aborts: a request of one bio whose first
   * segment is out of range copies nothing, yet is ended successfully with
   * the bio's full bi_size.
   */
  lemma ReportsAbortedBytes(store: seq<bv8>, bio: Bio)
    requires |bio.segments| > 0
    requires BioStart(bio) + bio.segments[0].nbytes > |store|
    ensures
      var (store', c) := HandleSpec(store, Request(Fs, bio.sector, bio.size, [bio]));
      && store' == store
      && c.error == 0 && c.bytes == bio.size
      && c.hosts == [Buffers(bio.segments, 0)]
  {
    assert [bio][1..] == [];
    assert [] + Buffers(bio.segments, 0) == Buffers(bio.segments, 0);
    assert XferBios(store, [bio]).store == store;
    assert SumSizes([bio]) == bio.size + SumSizes([]);
  }

  /**
   * The request loop is left spinning exactly when the queue holds a request
   * that is not REQ_TYPE_FS; otherwise it ends every request in the queue.
   */
  lemma {:induction false} QueueSpins(store: seq<bv8>, queue: seq<Request>)
    ensures
      var r := RunQueue(store, queue);
      && (r.spinning <==> exists q :: 0 <= q < |queue| && queue[q].cmdType != Fs)
      && (!r.spinning ==> |r.completions| == |queue|)
    decreases |queue|
  {
    if queue != [] && queue[0].cmdType == Fs {
      var store' := HandleSpec(store, queue[0]).0;
      QueueSpins(store', queue[1..]);
      if exists q :: 0 <= q < |queue[1..]| && queue[1..][q].cmdType != Fs {
        var q :| 0 <= q < |queue[1..]| && queue[1..][q].cmdType != Fs;
        assert queue[q + 1].cmdType != Fs;
      }
      if exists q :: 0 <= q < |queue| && queue[q].cmdType != Fs {
        var q :| 0 <= q < |queue| && queue[q].cmdType != Fs;
        assert queue[1..][q - 1].cmdType != Fs;
      }
    }
  }

  /**
   * The request loop stops at the first request that is not REQ_TYPE_FS: the
   * requests ended before it are all REQ_TYPE_FS, and when it spins, the last
   * request ended is one that is not, ended with -EIO.
   */
  lemma {:induction false} QueueStops(store: seq<bv8>, queue: seq<Request>)
    ensures
      var r := RunQueue(store, queue);
      && (r.spinning ==> 0 < |r.completions| && queue[|r.completions| - 1].cmdType != Fs
                         && r.completions[|r.completions| - 1].error == -EIO)
      && (forall q :: 0 <= q < |r.completions| - 1 ==> queue[q].cmdType == Fs)
    decreases |queue|
  {
    if queue != [] && queue[0].cmdType == Fs {
      var store' := HandleSpec(store, queue[0]).0;
      QueueStops(store', queue[1..]);
      var rest := RunQueue(store', queue[1..]);
      forall q | 0 <= q < |rest.completions|
        ensures queue[q].cmdType == Fs
      {
        if q > 0 {
          assert queue[q] == queue[1..][q - 1];
        }
      }
    }
  }

  /**
   * The request loop ends the requests it reaches in queue order, each
   * REQ_TYPE_FS one successfully with its bi_size total.
   */
  lemma {:induction false} QueueCompletions(store: seq<bv8>, queue: seq<Request>)
    ensures
      var r := RunQueue(store, queue);
      forall q :: 0 <= q < |r.completions| && queue[q].cmdType == Fs ==>
        r.completions[q].error == 0 && r.completions[q].bytes == SumSizes(queue[q].bios)
    decreases |queue|
  {
    if queue != [] && queue[0].cmdType == Fs {
      var (store', c) := HandleSpec(store, queue[0]);
      QueueCompletions(store', queue[1..]);
    }
  }

  /**
   * sbull_transfer scales the byte count by 512 again, so it ignores a
   * request for the last sector of the store, which lies inside it.
   */
  lemma TransferRejectsLastSector()
    ensures
      var req := Request(Fs, SBULL_SEC_NUM - 1, SBULL_SEC_SIZE, []);
      && req.pos * KERNEL_SECTOR_SIZE + req.bytes <= CAPACITY
      && TransferWindow(req, CAPACITY).None?
  {
  }
}
