/**
 * Properties of scull that span several calls: what a writer that starts at
 * offset 0 and keeps calling write(2) until its data is stored leaves in the
 * device, what reads then return, and where reads stop behaving like a file.
 */
module ScullLaws {
  import opened Kernel
  import opened Scull

  /**
   * A writer's loop: scull_write is called at the returned offset with the
   * bytes not yet written until none are left, every page allocation
   * succeeding.  Each call stores at least one byte, since the in-page
   * position is below the page size.
   */
  function WriteAll(s: ScullState, data: seq<bv8>, offset: nat): (r: (ScullState, nat))
    requires WellFormed(s)
    ensures WellFormed(r.0)
    ensures r.1 == offset + |data|
    decreases |data|
  {
    if data == [] then (s, offset)
    else
      var o := WriteSpec(s, Some(data), offset, true);
      WriteAll(o.state, data[o.ret..], o.offset)
  }

  /** The byte at stream offset j as a read of page PageIndex(j) would see it. */
  function ByteAt(s: ScullState, j: nat): bv8
    requires WellFormed(s)
  {
    if PageIndex(j) < |s.pages| then s.pages[PageIndex(j)][PagePos(j)] else 0
  }

  /**
   * `s` holds exactly `data`, written sequentially from offset 0: the pages
   * needed for it and no more, cur_size equal to its length, and every byte at
   * its stream offset.
   */
  ghost predicate Holds(s: ScullState, data: seq<bv8>)
  {
    && WellFormed(s)
    && |data| > 0
    && PageCount(s) == (|data| - 1) / PAGE_SIZE
    && s.curSize == |data|
    && forall j {:trigger ByteAt(s, j)} :: 0 <= j < |data| ==> ByteAt(s, j) == data[j]
  }

  /** One call of the loop, at an offset k > 0 inside the data, extends what the device holds. */
  lemma WriteStepExtends(s: ScullState, data: seq<bv8>, k: nat)
    requires 0 < k < |data| && Holds(s, data[..k])
    ensures
      var o := WriteSpec(s, Some(data[k..]), k, true);
      && o.ret > 0 && o.offset == k + o.ret && k + o.ret <= |data|
      && Holds(o.state, data[..k + o.ret])
  {
    var o := WriteSpec(s, Some(data[k..]), k, true);
    WriteSpecStores(s, Some(data[k..]), k, true);
    var n := o.ret;
    var idx, pos := PageIndex(k), PagePos(k);
    var t := o.state;
    // The tail node that get_write_page returns is the page of offset k.
    assert PageCount(t) == idx;
    assert (k + n - 1) / PAGE_SIZE == idx;
    forall j | 0 <= j < k + n
      ensures ByteAt(t, j) == data[..k + n][j]
    {
      if j < k {
        assert ByteAt(s, j) == data[..k][j];
        if PageIndex(j) == idx {
          assert PagePos(j) < pos;
        }
      } else {
        assert PageIndex(j) == idx && PagePos(j) == pos + (j - k);
        assert t.pages[idx][pos + (j - k)] == data[k..][j - k];
      }
    }
  }

  /**
   * One turn of the writer's loop at offset k inside the data: the call
   * stores m > 0 more bytes, leaving a state t that holds data[..k + m], and
   * the loop goes on from there.
   */
  lemma WriteAllStep(s: ScullState, data: seq<bv8>, k: nat) returns (t: ScullState, m: nat)
    requires 0 < k < |data| && Holds(s, data[..k])
    ensures 0 < m && k + m <= |data| && Holds(t, data[..k + m])
    ensures WriteAll(s, data[k..], k) == WriteAll(t, data[k + m..], k + m)
  {
    var o := WriteSpec(s, Some(data[k..]), k, true);
    WriteStepExtends(s, data, k);
    assert data[k..][o.ret..] == data[k + o.ret..];
    t, m := o.state, o.ret;
  }

  /** The loop, resumed at offset k after data[..k] is stored, stores all of data. */
  lemma {:induction false} WriteAllFrom(s: ScullState, data: seq<bv8>, k: nat)
    requires 0 < k <= |data| && Holds(s, data[..k])
    ensures Holds(WriteAll(s, data[k..], k).0, data)
    decreases |data| - k, 1
  {
    if k == |data| {
      WriteAllDone(s, data);
    } else {
      WriteAllMore(s, data, k);
    }
  }

  /** The loop at the end of the data stops, the device holding all of it. */
  lemma WriteAllDone(s: ScullState, data: seq<bv8>)
    requires 0 < |data| && Holds(s, data[..|data|])
    ensures Holds(WriteAll(s, data[|data|..], |data|).0, data)
  {
    assert data[..|data|] == data;
    assert data[|data|..] == [];
  }

  /** The loop inside the data makes one call, then goes on storing the rest. */
  lemma {:induction false} WriteAllMore(s: ScullState, data: seq<bv8>, k: nat)
    requires 0 < k < |data| && Holds(s, data[..k])
    ensures Holds(WriteAll(s, data[k..], k).0, data)
    decreases |data| - k, 0
  {
    var t, m := WriteAllStep(s, data, k);
    WriteAllFrom(t, data, k + m);
  }

  /**
   * Writing non-empty data from offset 0 leaves the device holding exactly
   * that data, whatever it held before: the first call resets the buffer.
   */
  lemma {:induction false} WriteAllStores(s: ScullState, data: seq<bv8>)
    requires WellFormed(s) && |data| > 0
    ensures Holds(WriteAll(s, data, 0).0, data)
  {
    var o := WriteSpec(s, Some(data), 0, true);
    WriteSpecStores(s, Some(data), 0, true);
    var n := o.ret;
    assert n > 0;
    forall j | 0 <= j < n
      ensures ByteAt(o.state, j) == data[..n][j]
    {
      assert PageIndex(j) == 0 && PagePos(j) == j;
    }
    assert Holds(o.state, data[..n]);
    WriteAllFrom(o.state, data, n);
  }

  /**
   * After such a write, a read at any offset k inside the data succeeds,
   * copies CopySize bytes, and every copied byte that lies inside the data is
   * the byte written there (the rest of the page follows it).
   */
  lemma ReadBack(s: ScullState, data: seq<bv8>, dest: seq<bv8>, k: nat)
    requires Holds(s, data) && k < |data|
    ensures
      var o := ReadSpec(s, Some(dest), k);
      var n := CopySize(|dest|, PagePos(k));
      && o.ret == n && o.offset == k + n
      && (forall j :: 0 <= j < n && k + j < |data| ==> o.dest.value[j] == data[k + j])
  {
    var n := CopySize(|dest|, PagePos(k));
    forall j | 0 <= j < n && k + j < |data|
      ensures ReadSpec(s, Some(dest), k).dest.value[j] == data[k + j]
    {
      CopyStaysInPage(k, |dest|, k + j);
      assert ByteAt(s, k + j) == data[k + j];
    }
  }

  /**
   * The round trip: writing data from offset 0 and then reading at an offset
   * inside it returns the bytes written, for every copied byte that lies
   * inside the data.
   */
  lemma RoundTrip(s: ScullState, data: seq<bv8>, dest: seq<bv8>, k: nat)
    requires WellFormed(s) && k < |data|
    ensures
      var o := ReadSpec(WriteAll(s, data, 0).0, Some(dest), k);
      && o.ret == CopySize(|dest|, PagePos(k))
      && forall j :: 0 <= j < o.ret && k + j < |data| ==> o.dest.value[j] == data[k + j]
  {
    WriteAllStores(s, data);
    ReadBack(WriteAll(s, data, 0).0, data, dest, k);
  }

  /** After a 100-byte write, read(0, 4096) copies the whole page, the written bytes first. */
  lemma ReadPageAfterShortWrite(s: ScullState, data: seq<bv8>, dest: seq<bv8>)
    requires WellFormed(s) && |data| == 100 && |dest| == PAGE_SIZE
    ensures
      var o := ReadSpec(WriteAll(s, data, 0).0, Some(dest), 0);
      && o.ret == PAGE_SIZE && o.dest.value[..100] == data
  {
    RoundTrip(s, data, dest, 0);
    var o := ReadSpec(WriteAll(s, data, 0).0, Some(dest), 0);
    assert forall j :: 0 <= j < 100 ==> o.dest.value[..100][j] == data[j];
  }

  /**
   * The reset law: a second pass from offset 0 leaves the device holding the
   * second data only, with as many pages as it needs, whatever the first
   * pass wrote.
   */
  lemma ResetLaw(s: ScullState, first: seq<bv8>, second: seq<bv8>)
    requires WellFormed(s) && |second| > 0
    ensures
      var t := WriteAll(WriteAll(s, first, 0).0, second, 0).0;
      && Holds(t, second)
      && PageCount(t) == (|second| - 1) / PAGE_SIZE
  {
    WriteAllStores(WriteAll(s, first, 0).0, second);
  }

  /**
   * Growth: PAGE_SIZE * n + 1 bytes written from offset 0 occupy the header
   * page and n appended pages, so page_count is n (page_count does not count
   * the header's page).
   */
  lemma Growth(s: ScullState, data: seq<bv8>, n: nat)
    requires WellFormed(s) && |data| == PAGE_SIZE * n + 1
    ensures PageCount(WriteAll(s, data, 0).0) == n
    ensures |WriteAll(s, data, 0).0.pages| == n + 1
  {
    WriteAllStores(s, data);
  }

  /**
   * Reads do not stop at cur_size: at the end of data that does not fill its
   * last page, a read still copies the rest of that page, bytes never written
   * since the reset.
   */
  lemma ReadPastEndCopies(s: ScullState, data: seq<bv8>, dest: seq<bv8>)
    requires Holds(s, data) && |data| % PAGE_SIZE != 0 && |dest| > 0
    ensures
      var o := ReadSpec(s, Some(dest), |data|);
      o.ret > 0 && o.offset > s.curSize
  {
  }

  /**
   * At the end of data that fills its last page exactly, a read fails with
   * -EFAULT instead of returning 0: the page index of the end is one past
   * page_count.
   */
  lemma ReadAtPageAlignedEndFaults(s: ScullState, data: seq<bv8>, dest: seq<bv8>)
    requires Holds(s, data) && |data| % PAGE_SIZE == 0
    ensures ReadSpec(s, Some(dest), |data|).ret == -EFAULT
  {
  }

  /**
   * A single call never crosses a page boundary: every byte a read or write
   * copies lies in the page of the starting offset.
   */
  lemma CopyStaysInPage(offset: nat, size: nat, j: nat)
    requires offset <= j < offset + CopySize(size, PagePos(offset))
    ensures PageIndex(j) == PageIndex(offset)
    ensures PagePos(j) == PagePos(offset) + (j - offset)
  {
  }

  /**
   * A write at a non-zero offset whose page already exists adds its count to
   * cur_size and no page; the state it leaves meets the same condition, so
   * writes repeated at that offset keep adding to cur_size while the pages
   * stay as they are: the byte count is not bounded by the pages held.
   */
  lemma RewriteGrowsCurSize(s: ScullState, data: seq<bv8>, offset: nat)
    requires WellFormed(s) && offset != 0 && PageIndex(offset) <= PageCount(s)
    ensures
      var o := WriteSpec(s, Some(data), offset, false);
      && o.ret == CopySize(|data|, PagePos(offset))
      && o.state.curSize == s.curSize + o.ret
      && PageCount(o.state) == PageCount(s)
  {
  }

  /** Two equal writes at such an offset add twice the count to cur_size. */
  lemma RewriteTwice(s: ScullState, data: seq<bv8>, offset: nat)
    requires WellFormed(s) && offset != 0 && PageIndex(offset) <= PageCount(s)
    ensures
      var o1 := WriteSpec(s, Some(data), offset, false);
      var o2 := WriteSpec(o1.state, Some(data), offset, false);
      && o2.state.curSize == s.curSize + 2 * CopySize(|data|, PagePos(offset))
      && PageCount(o2.state) == PageCount(s)
  {
    RewriteGrowsCurSize(s, data, offset);
    var o1 := WriteSpec(s, Some(data), offset, false);
    RewriteGrowsCurSize(o1.state, data, offset);
  }
}
