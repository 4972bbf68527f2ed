/**
 * The scull character device: a stream of bytes kept in page-size blocks on a
 * circular doubly-linked list whose header node (s_dev.data_header) owns the
 * first page.  The global s_dev holds page_size, page_count (the number of
 * nodes appended after the header) and cur_size (bytes written since the last
 * reset).
 *
 * The list is modelled by the sequence of its nodes' pages in list order:
 * index 0 is the header's own page and index i is the node reached by
 * following `next` i times from the header, so page_count == |pages| - 1 and
 * header->prev is the last index.
 */
module Scull {
  import opened Kernel

  /** PAGE_SIZE of the configuration modelled (4 KiB pages); s_dev.page_size. */
  const PAGE_SIZE: nat := 4096

  /** The abstract value of s_dev's data path: the page of every list node, and cur_size. */
  datatype ScullState = ScullState(pages: seq<seq<bv8>>, curSize: nat)

  /** Result of scull_write: the returned ssize_t, the new *offset and the new device state. */
  datatype WriteOutcome = WriteOutcome(ret: int, offset: nat, state: ScullState)

  /** Result of scull_read: the returned ssize_t, the new *offset and the user buffer afterwards. */
  datatype ReadOutcome = ReadOutcome(ret: int, offset: nat, dest: Option<seq<bv8>>)

  /** There is a header page and every page is PAGE_SIZE bytes long. */
  predicate WellFormed(s: ScullState)
  {
    |s.pages| >= 1 && forall i :: 0 <= i < |s.pages| ==> |s.pages[i]| == PAGE_SIZE
  }

  /** page_count: the nodes appended after the header. */
  function PageCount(s: ScullState): nat
    requires |s.pages| >= 1
  {
    |s.pages| - 1
  }

  /** The page index of a byte offset, `*offset / page_size`. */
  function PageIndex(offset: nat): (idx: nat)
    ensures idx * PAGE_SIZE <= offset < idx * PAGE_SIZE + PAGE_SIZE
  {
    offset / PAGE_SIZE
  }

  /** The position inside its page of a byte offset, `*offset % page_size`. */
  function PagePos(offset: nat): (pos: nat)
    ensures pos < PAGE_SIZE
    ensures PageIndex(offset) * PAGE_SIZE + pos == offset
  {
    offset % PAGE_SIZE
  }

  /**
   * The number of bytes one call copies: the request, cut at the end of the
   * current page.  It is never clamped to cur_size.
   */
  function CopySize(size: nat, pos: nat): (n: nat)
    requires pos < PAGE_SIZE
    ensures n <= size && pos + n <= PAGE_SIZE
    ensures n == size || pos + n == PAGE_SIZE
  {
    if size > PAGE_SIZE - pos then PAGE_SIZE - pos else size
  }

  /** A page as get_zeroed_page returns it. */
  function ZeroPage(): (page: seq<bv8>)
    ensures |page| == PAGE_SIZE && forall i :: 0 <= i < PAGE_SIZE ==> page[i] == 0
  {
    seq(PAGE_SIZE, _ => 0)
  }

  /**
   * scull_reset_buffer: every appended node is released and cur_size and
   * page_count become 0.  The header keeps its page and its old bytes.  (The
   * source frees nodes while list_for_each still walks them and never
   * re-initialises the header's links; the model is the evident intent.)
   */
  function Reset(s: ScullState): (r: ScullState)
    requires WellFormed(s)
    ensures WellFormed(r) && PageCount(r) == 0 && r.curSize == 0
    ensures r.pages[0] == s.pages[0]
  {
    ScullState([s.pages[0]], 0)
  }

  /**
   * get_write_page: when the page index exceeds page_count, create_page
   * allocates one node with a zeroed page and it is appended at the tail
   * (`allocOk` says whether the allocation succeeds; on failure nothing
   * changes); then the TAIL node header->prev is returned, whatever the page
   * index was.  (create_page returns a node even when only get_zeroed_page
   * fails, leaving its data pointer NULL; a value model has no NULL page, so
   * that case is folded into the failure.)
   */
  function WritePage(s: ScullState, idx: nat, allocOk: bool): (r: Option<(ScullState, nat)>)
    requires WellFormed(s)
    ensures r.None? <==> idx > PageCount(s) && !allocOk
    ensures r.Some? ==> WellFormed(r.value.0) && r.value.0.curSize == s.curSize
    ensures r.Some? ==> r.value.1 == PageCount(r.value.0)
    ensures r.Some? ==> PageCount(r.value.0) == if idx > PageCount(s) then PageCount(s) + 1 else PageCount(s)
    ensures r.Some? ==> r.value.0.pages[..|s.pages|] == s.pages
    ensures r.Some? && idx > PageCount(s) ==> r.value.0.pages[|s.pages|] == ZeroPage()
  {
    if idx <= PageCount(s) then Some((s, PageCount(s)))
    else if allocOk then Some((ScullState(s.pages + [ZeroPage()], s.curSize), |s.pages|))
    else None
  }

  /** The state scull_write works on once the offset-0 reset has been applied. */
  function Prepared(s: ScullState, offset: nat): ScullState
    requires WellFormed(s)
  {
    if offset == 0 then Reset(s) else s
  }

  /**
   * scull_write(data, size = |data|, offset).  NULL data gives -EINVAL; an
   * offset of 0 resets the buffer first; the page is got from get_write_page
   * (-ENOMEM when its allocation fails); CopySize bytes go into the tail node
   * at the in-page position; *offset and cur_size both grow by the count.
   */
  function WriteSpec(s: ScullState, data: Option<seq<bv8>>, offset: nat, allocOk: bool): (o: WriteOutcome)
    requires WellFormed(s)
    ensures WellFormed(o.state)
    ensures data.None? ==> o == WriteOutcome(-EINVAL, offset, s)
    ensures o.ret < 0 ==> o.offset == offset && o.state == s
    ensures data.Some? ==> (o.ret == -ENOMEM <==> offset != 0 && PageIndex(offset) > PageCount(s) && !allocOk)
    ensures o.ret >= 0 ==> data.Some? && o.ret == CopySize(|data.value|, PagePos(offset))
    ensures data.Some? && offset == 0 ==>
      o.ret == CopySize(|data.value|, 0) && o.state.curSize == o.ret && PageCount(o.state) == 0
    ensures o.ret >= 0 ==> o.offset == offset + o.ret
    ensures o.ret >= 0 && offset != 0 ==> o.state.curSize == s.curSize + o.ret
    ensures o.ret >= 0 && offset != 0 ==>
      PageCount(o.state) == if PageIndex(offset) > PageCount(s) then PageCount(s) + 1 else PageCount(s)
  {
    if data.None? then WriteOutcome(-EINVAL, offset, s)
    else
      var b := Prepared(s, offset);
      var pos := PagePos(offset);
      match WritePage(b, PageIndex(offset), allocOk)
      case None => WriteOutcome(-ENOMEM, offset, b)
      case Some((grown, node)) =>
        var n := CopySize(|data.value|, pos);
        var page := Memcpy(grown.pages[node], pos, data.value, 0, n);
        WriteOutcome(n, offset + n, ScullState(grown.pages[node := page], grown.curSize + n))
  }

  /**
   * The bytes a successful scull_write leaves: the tail node holds the data
   * from the in-page position on, every other byte of the tail page and every
   * other page is as the (reset, when the offset is 0) device held it, and a
   * page appended by get_write_page is zero outside the copied range.
   */
  lemma WriteSpecStores(s: ScullState, data: Option<seq<bv8>>, offset: nat, allocOk: bool)
    requires WellFormed(s)
    ensures
      var o := WriteSpec(s, data, offset, allocOk);
      o.ret >= 0 ==>
        forall i :: 0 <= i < o.ret ==> o.state.pages[PageCount(o.state)][PagePos(offset) + i] == data.value[i]
    ensures
      var o := WriteSpec(s, data, offset, allocOk);
      o.ret >= 0 ==>
        forall p :: 0 <= p < |Prepared(s, offset).pages| && p != PageCount(o.state) ==>
          o.state.pages[p] == Prepared(s, offset).pages[p]
    ensures
      var o := WriteSpec(s, data, offset, allocOk);
      var tail := PageCount(o.state);
      o.ret >= 0 ==>
        forall i :: 0 <= i < PAGE_SIZE && !(PagePos(offset) <= i < PagePos(offset) + o.ret) ==>
          o.state.pages[tail][i] == (if tail < |Prepared(s, offset).pages| then Prepared(s, offset).pages[tail][i] else 0)
  {
  }

  /**
   * scull_read(dest, size = |dest|, offset).  NULL dest gives -EINVAL; an
   * offset past cur_size gives 0 (an offset equal to it still copies); a page
   * index past page_count gives -EFAULT; otherwise CopySize bytes of page
   * `index` (page 0 being the header's) are copied to the start of dest.
   */
  function ReadSpec(s: ScullState, dest: Option<seq<bv8>>, offset: nat): (o: ReadOutcome)
    requires WellFormed(s)
    ensures dest.None? ==> o == ReadOutcome(-EINVAL, offset, dest)
    ensures o.ret <= 0 ==> o.offset == offset && o.dest == dest
    ensures dest.Some? && offset > s.curSize ==> o.ret == 0
    ensures dest.Some? && offset <= s.curSize ==> (o.ret == -EFAULT <==> PageIndex(offset) > PageCount(s))
    ensures o.ret >= 0 ==> o.offset == offset + o.ret
    ensures dest.Some? && offset <= s.curSize && PageIndex(offset) <= PageCount(s) ==>
      var n := CopySize(|dest.value|, PagePos(offset));
      && o.ret == n
      && o.dest.Some? && |o.dest.value| == |dest.value|
      && (forall i :: 0 <= i < n ==> o.dest.value[i] == s.pages[PageIndex(offset)][PagePos(offset) + i])
      && (forall i :: n <= i < |dest.value| ==> o.dest.value[i] == dest.value[i])
  {
    if dest.None? then ReadOutcome(-EINVAL, offset, dest)
    else if offset > s.curSize then ReadOutcome(0, offset, dest)
    else
      var idx := PageIndex(offset);
      var pos := PagePos(offset);
      if idx > PageCount(s) then ReadOutcome(-EFAULT, offset, dest)
      else
        var n := CopySize(|dest.value|, pos);
        ReadOutcome(n, offset + n, Some(Memcpy(dest.value, 0, s.pages[idx], pos, n)))
  }

  /** The device s_dev with its page list. */
  class ScullDev {
    var pages: seq<seq<bv8>>
    var pageCount: nat
    var curSize: nat

    ghost predicate Valid()
      reads this
    {
      pageCount + 1 == |pages| && WellFormed(State())
    }

    ghost function State(): ScullState
      reads this
    {
      ScullState(pages, curSize)
    }

    /** The data-path part of scull_init: the header gets a zeroed page, both counters are 0. */
    constructor ()
      ensures Valid()
      ensures State() == ScullState([ZeroPage()], 0)
    {
      pages := [ZeroPage()];
      pageCount := 0;
      curSize := 0;
    }

    /** The `next` link of a node: the node after it, the last node's being the header. */
    function Next(node: nat): (n: nat)
      reads this
      requires node < |pages|
      ensures n < |pages|
      ensures n == 0 <==> node == |pages| - 1
    {
      if node + 1 < |pages| then node + 1 else 0
    }

    /** scull_reset_buffer: walks the list from the header, releasing every appended node. */
    method ResetBuffer()
      requires Valid()
      modifies this
      ensures Valid()
      ensures State() == Reset(old(State()))
    {
      while |pages| > 1
        invariant 1 <= |pages| && pages[0] == old(pages[0])
        invariant forall i :: 0 <= i < |pages| ==> |pages[i]| == PAGE_SIZE
        decreases |pages|
      {
        pages := [pages[0]] + pages[2..];
      }
      curSize := 0;
      pageCount := 0;
    }

    /** get_write_page: grows the list by at most one node and returns the tail node. */
    method GetWritePage(idx: nat, allocOk: bool) returns (node: Option<nat>)
      requires Valid()
      modifies this
      ensures Valid()
      ensures WritePage(old(State()), idx, allocOk).None? ==> node.None? && State() == old(State())
      ensures WritePage(old(State()), idx, allocOk).Some? ==>
        node == Some(WritePage(old(State()), idx, allocOk).value.1) &&
        State() == WritePage(old(State()), idx, allocOk).value.0
    {
      if idx > pageCount {
        // create_page
        if !allocOk {
          return None;
        }
        pages := pages + [ZeroPage()];
        pageCount := pageCount + 1;
      }
      return Some(|pages| - 1);
    }

    /**
     * get_read_page: -EFAULT territory (None) past page_count, otherwise the
     * node reached by following `next` idx times from the header, which is
     * the node at list position idx: index 0 is the header itself.
     */
    method GetReadPage(idx: nat) returns (node: Option<nat>)
      requires Valid()
      ensures node.None? <==> idx > pageCount
      ensures node.Some? ==> node.value == idx && node.value < |pages|
    {
      if idx > pageCount {
        return None;
      }
      var cursor := 0;
      var steps := 0;
      while steps < idx
        invariant steps <= idx
        invariant cursor == steps
      {
        cursor := Next(cursor);
        steps := steps + 1;
      }
      return Some(cursor);
    }

    /**
     * scull_read.  The wait for cur_size != 0 is not modelled: its result is
     * ignored by the source, so the code below runs in whatever state the
     * wait returns in.  Nothing of the device changes.
     */
    method Read(dest: Option<seq<bv8>>, offset: nat) returns (r: int, newOffset: nat, dest': Option<seq<bv8>>)
      requires Valid()
      ensures ReadOutcome(r, newOffset, dest') == ReadSpec(State(), dest, offset)
    {
      if dest.None? {
        return -EINVAL, offset, dest;
      }
      if offset > curSize {
        return 0, offset, dest;
      }
      var idx := PageIndex(offset);
      var pos := PagePos(offset);
      var node := GetReadPage(idx);
      if node.None? {
        return -EFAULT, offset, dest;
      }
      var n := CopySize(|dest.value|, pos);
      dest' := Some(Memcpy(dest.value, 0, pages[node.value], pos, n));
      newOffset := offset + n;
      r := n;
    }

    /** scull_write; waking the readers is not modelled. */
    method Write(data: Option<seq<bv8>>, offset: nat, allocOk: bool) returns (r: int, newOffset: nat)
      requires Valid()
      modifies this
      ensures Valid()
      ensures WriteOutcome(r, newOffset, State()) == WriteSpec(old(State()), data, offset, allocOk)
    {
      if data.None? {
        return -EINVAL, offset;
      }
      if offset == 0 {
        ResetBuffer();
      }
      var idx := PageIndex(offset);
      var pos := PagePos(offset);
      var node := GetWritePage(idx, allocOk);
      if node.None? {
        return -ENOMEM, offset;
      }
      var n := CopySize(|data.value|, pos);
      pages := pages[node.value := Memcpy(pages[node.value], pos, data.value, 0, n)];
      newOffset := offset + n;
      curSize := curSize + n;
      r := n;
    }
  }
}
