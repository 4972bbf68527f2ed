/**
 * Kernel facilities shared by the two drivers: bytes, the error numbers they
 * return, an optional value for user pointers that may be NULL, and the model
 * of memcpy / copy_to_user / copy_from_user as an overwrite of a byte range.
 */
module Kernel {

  /** Linux error numbers used by the drivers (returned negated). */
  const EIO: int := 5
  const ENOMEM: int := 12
  const EFAULT: int := 14
  const EINVAL: int := 22

  /** A user pointer: None stands for NULL. */
  datatype Option<T> = None | Some(value: T)

  /**
   * memcpy(dst + dstOff, src + srcOff, n) on byte sequences: the bytes of
   * `dst` with its range [dstOff, dstOff + n) replaced by src[srcOff..srcOff + n].
   */
  function Memcpy(dst: seq<bv8>, dstOff: nat, src: seq<bv8>, srcOff: nat, n: nat): (r: seq<bv8>)
    requires dstOff + n <= |dst| && srcOff + n <= |src|
    ensures |r| == |dst|
  {
    seq(|dst|, i requires 0 <= i < |dst| =>
      if dstOff <= i < dstOff + n then src[srcOff + (i - dstOff)] else dst[i])
  }

  /** Byte i of a copy: from `src` inside the destination range, from `dst` outside it. */
  lemma MemcpyAt(dst: seq<bv8>, dstOff: nat, src: seq<bv8>, srcOff: nat, n: nat, i: nat)
    requires dstOff + n <= |dst| && srcOff + n <= |src| && i < |dst|
    ensures dstOff <= i < dstOff + n ==> Memcpy(dst, dstOff, src, srcOff, n)[i] == src[srcOff + (i - dstOff)]
    ensures (i < dstOff || dstOff + n <= i) ==> Memcpy(dst, dstOff, src, srcOff, n)[i] == dst[i]
  {
  }

  /**
   * The three ranges of a copy: the bytes before the destination range and
   * after it are dst's, the range itself is the source range.
   */
  lemma MemcpyRanges(dst: seq<bv8>, dstOff: nat, src: seq<bv8>, srcOff: nat, n: nat)
    requires dstOff + n <= |dst| && srcOff + n <= |src|
    ensures
      var r := Memcpy(dst, dstOff, src, srcOff, n);
      && r[..dstOff] == dst[..dstOff]
      && r[dstOff..dstOff + n] == src[srcOff..srcOff + n]
      && r[dstOff + n..] == dst[dstOff + n..]
  {
  }

  /** memcpy into a kernel buffer held in an array. */
  method CopyInto(a: array<bv8>, dstOff: nat, src: seq<bv8>, srcOff: nat, n: nat)
    requires dstOff + n <= a.Length && srcOff + n <= |src|
    modifies a
    ensures a[..] == Memcpy(old(a[..]), dstOff, src, srcOff, n)
  {
    forall i | dstOff <= i < dstOff + n {
      a[i] := src[srcOff + (i - dstOff)];
    }
  }
}
