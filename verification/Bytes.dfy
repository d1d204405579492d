/** Bytes and the byte-sequence operations shared by the other modules. */
module Bytes {

  type byte = x: int | 0 <= x < 256

  datatype Option<+T> = None | Some(value: T)

  function Max(a: nat, b: nat): nat { if a >= b then a else b }

  function Min(a: nat, b: nat): nat { if a <= b then a else b }

  /** `v << i` in unbounded arithmetic. */
  function Shl(v: nat, i: nat): (r: nat)
    ensures r >= v
  {
    if i == 0 then v else 2 * Shl(v, i - 1)
  }

  /** 2 to the power `i`. */
  function Pow2(i: nat): (r: nat) { Shl(1, i) }

  // ---- Characters and numbers ------------------------------------------------------------

  predicate IsNum(c: byte) { 48 <= c <= 57 }

  predicate IsAlpha(c: byte) { 65 <= c <= 90 || 97 <= c <= 122 }

  predicate IsAlphaNum(c: byte) { IsAlpha(c) || IsNum(c) }

  predicate IsHexDigit(c: byte) { IsNum(c) || 65 <= c <= 70 || 97 <= c <= 102 }

  /** A digit of "0123456789ABCDEF". */
  function HexDigit(n: nat): (c: byte)
    requires n < 16
    ensures IsHexDigit(c)
  {
    if n < 10 then 48 + n else 55 + n
  }

  /** The number written in s[lo..hi]. */
  function Number(s: seq<byte>, lo: nat, hi: nat): nat
    requires lo <= hi <= |s| && forall k :: lo <= k < hi ==> IsNum(s[k])
    decreases hi
  {
    if lo == hi then 0 else Number(s, lo, hi - 1) * 10 + (assert IsNum(s[hi - 1]); s[hi - 1] - 48)
  }

  lemma {:induction false} NumberGrows(s: seq<byte>, lo: nat, mid: nat, hi: nat)
    requires lo <= mid <= hi <= |s| && forall k :: lo <= k < hi ==> IsNum(s[k])
    ensures Number(s, lo, mid) <= Number(s, lo, hi)
    decreases hi
  {
    if mid < hi { NumberGrows(s, lo, mid, hi - 1); }
  }

  // ---- Overwriting -----------------------------------------------------------------------

  /** `s` with the bytes at `at ..` replaced by `bytes`. */
  function Patch(s: seq<byte>, at: nat, bytes: seq<byte>): (r: seq<byte>)
    requires at + |bytes| <= |s|
    ensures |r| == |s|
  {
    s[..at] + bytes + s[at + |bytes|..]
  }

  /** Writing `bytes` at `at` into a sequence that grows when the write passes its end. */
  function Overwrite(s: seq<byte>, at: nat, bytes: seq<byte>): (r: seq<byte>)
    requires at <= |s|
    ensures |r| == Max(|s|, at + |bytes|)
  {
    s[..at] + bytes + (if at + |bytes| < |s| then s[at + |bytes|..] else [])
  }

  /** `now` is `mem` with the first `n` bytes of `buf` written at `start`. */
  ghost predicate Wrote(now: seq<byte>, mem: seq<byte>, start: nat, buf: seq<byte>, n: nat)
    requires n <= |buf|
  {
    && |now| == |mem|
    && forall i :: 0 <= i < |mem| ==> now[i] == if start <= i < start + n then buf[i - start] else mem[i]
  }

  lemma WroteMore(now: seq<byte>, mem: seq<byte>, start: nat, buf: seq<byte>, n: nat, more: nat)
    requires n + more <= |buf| && start + n + more <= |now|
    requires Wrote(now, mem, start, buf, n)
    ensures Wrote(Patch(now, start + n, buf[n..n + more]), mem, start, buf, n + more)
  {
  }

  /** Seen through the first `size` bytes, the write is `Overwrite`. */
  lemma WroteAll(now: seq<byte>, mem: seq<byte>, start: nat, buf: seq<byte>, size: nat)
    requires Wrote(now, mem, start, buf, |buf|)
    requires start <= size <= |mem| && start + |buf| <= |mem|
    ensures now[..Max(size, start + |buf|)] == Overwrite(mem[..size], start, buf)
  {
  }

  lemma PatchAppend(s: seq<byte>, at: nat, bytes: seq<byte>, tail: seq<byte>)
    requires at + |bytes| <= |s|
    ensures Patch(s + tail, at, bytes) == Patch(s, at, bytes) + tail
  {
  }

  lemma PatchPrepend(head: seq<byte>, s: seq<byte>, at: nat, bytes: seq<byte>)
    requires at + |bytes| <= |s|
    ensures Patch(head + s, |head| + at, bytes) == head + Patch(s, at, bytes)
  {
  }

  lemma SliceMore<T>(s: seq<T>, i: nat, j: nat, k: nat)
    requires i <= j <= k <= |s|
    ensures s[i..j] + s[j..k] == s[i..k]
  {
  }

  lemma SliceOfAppend<T>(a: seq<T>, b: seq<T>, i: nat, j: nat)
    requires i <= j <= |a| + |b|
    ensures j <= |a| ==> (a + b)[i..j] == a[i..j]
    ensures |a| <= i ==> (a + b)[i..j] == b[i - |a|..j - |a|]
  {
  }

  lemma SliceOfTake<T>(s: seq<T>, n: nat, i: nat, j: nat)
    requires i <= j <= n <= |s|
    ensures s[..n][i..j] == s[i..j]
  {
  }

  lemma OverwriteMore(s: seq<byte>, at: nat, a: seq<byte>, b: seq<byte>)
    requires at <= |s|
    ensures Overwrite(Overwrite(s, at, a), at + |a|, b) == Overwrite(s, at, a + b)
  {
  }

  lemma OverwriteEnd(s: seq<byte>, bytes: seq<byte>)
    ensures Overwrite(s, |s|, bytes) == s + bytes
  {
  }

  /** `out` is the part of `s` between `lo` and `hi`. */
  ghost predicate IsSlice(out: seq<byte>, s: seq<byte>, lo: nat, hi: nat) {
    && lo <= hi <= |s| && |out| == hi - lo
    && forall i :: 0 <= i < |out| ==> out[i] == s[lo + i]
  }

  lemma IsSliceMore(out: seq<byte>, s: seq<byte>, lo: nat, mid: nat, hi: nat)
    requires mid <= hi <= |s| && IsSlice(out, s, lo, mid)
    ensures IsSlice(out + s[mid..hi], s, lo, hi)
  {
  }

  /** `e` occurs in `s` at the offset `at`. */
  ghost predicate Occurs(s: seq<byte>, at: nat, e: seq<byte>) {
    at + |e| <= |s| && forall j :: 0 <= j < |e| ==> s[at + j] == e[j]
  }

  lemma OccursIsSlice(s: seq<byte>, at: nat, e: seq<byte>)
    requires Occurs(s, at, e)
    ensures s[at..at + |e|] == e
  {
  }

  lemma OccursSplit(s: seq<byte>, at: nat, a: seq<byte>, b: seq<byte>)
    requires Occurs(s, at, a + b)
    ensures Occurs(s, at, a) && Occurs(s, at + |a|, b)
  {
    assert forall j :: 0 <= j < |a| ==> (a + b)[j] == a[j];
    forall j | 0 <= j < |b|
      ensures s[at + |a| + j] == b[j]
    {
      assert (a + b)[|a| + j] == b[j];
    }
  }

  lemma SplitWhole(s: seq<byte>, at: nat, whole: seq<byte>, a: seq<byte>, b: seq<byte>)
    requires Occurs(s, at, whole) && whole == a + b
    ensures Occurs(s, at, a) && Occurs(s, at + |a|, b) && |whole| == |a| + |b|
  {
    OccursSplit(s, at, a, b);
  }
}
