/**
 The value encodings of the byte buffer: fixed-width integers in either byte order, base-128
 varints, zigzag signed integers and length-prefixed strings.
 */
module Codec {
  import opened Bytes

  // ---- Fixed width -----------------------------------------------------------------------

  function Pow256(w: nat): (r: nat)
    ensures r >= 1
  {
    if w == 0 then 1 else 256 * Pow256(w - 1)
  }

  /** The memory image of `v` on a little-endian machine. */
  function LittleEndian(v: nat, w: nat): (s: seq<byte>)
    ensures |s| == w
  {
    if w == 0 then [] else [v % 256] + LittleEndian(v / 256, w - 1)
  }

  function FromLittle(s: seq<byte>): (v: nat) {
    if s == [] then 0 else s[0] + 256 * FromLittle(s[1..])
  }

  lemma {:induction false} FromLittleInverts(v: nat, w: nat)
    requires v < Pow256(w)
    ensures FromLittle(LittleEndian(v, w)) == v
  {
    if w > 0 {
      FromLittleInverts(v / 256, w - 1);
      assert LittleEndian(v, w)[1..] == LittleEndian(v / 256, w - 1);
    }
  }

  lemma {:induction false} LittleInverts(s: seq<byte>)
    ensures FromLittle(s) < Pow256(|s|) && LittleEndian(FromLittle(s), |s|) == s
  {
    if s != [] {
      LittleInverts(s[1..]);
      assert [s[0]] + s[1..] == s;
    }
  }

  function Reverse(s: seq<byte>): (r: seq<byte>)
    ensures |r| == |s| && forall i :: 0 <= i < |s| ==> r[i] == s[|s| - 1 - i]
  {
    if s == [] then [] else Reverse(s[1..]) + [s[0]]
  }

  lemma ReverseTwice(s: seq<byte>)
    ensures Reverse(Reverse(s)) == s
  {
  }

  /** bswap_16/32/64. */
  function ByteSwap(v: nat, w: nat): (r: nat)
    requires v < Pow256(w)
    ensures r < Pow256(w) && LittleEndian(r, w) == Reverse(LittleEndian(v, w))
  {
    LittleInverts(Reverse(LittleEndian(v, w)));
    FromLittle(Reverse(LittleEndian(v, w)))
  }

  datatype Order = Little | Big

  /** What memcpy takes from a `w`-byte variable holding `v` on a machine of byte order `host`. */
  function Image(v: nat, w: nat, host: Order): (s: seq<byte>)
    ensures |s| == w
  {
    if host == Little then LittleEndian(v, w) else Reverse(LittleEndian(v, w))
  }

  /** The value a `w`-byte variable has after memcpy of `s` into it. */
  function OfImage(s: seq<byte>, host: Order): (v: nat)
    ensures v < Pow256(|s|) && Image(v, |s|, host) == s
  {
    LittleInverts(s);
    LittleInverts(Reverse(s));
    ReverseTwice(s);
    FromLittle(if host == Little then s else Reverse(s))
  }

  /** The writing code: swap when the buffer's order is not the machine's, then copy the image. */
  function FixedBytes(v: nat, w: nat, order: Order, host: Order): (s: seq<byte>)
    requires v < Pow256(w)
    ensures |s| == w
  {
    Image(if order != host then ByteSwap(v, w) else v, w, host)
  }

  /** The reading code: copy into a variable, then swap when the orders differ. */
  function FixedValue(s: seq<byte>, order: Order, host: Order): (v: nat)
    ensures v < Pow256(|s|)
  {
    if order != host then ByteSwap(OfImage(s, host), |s|) else OfImage(s, host)
  }

  /** The bytes on the wire: most significant first in a big-endian buffer. */
  function Wire(v: nat, w: nat, order: Order): (s: seq<byte>)
    ensures |s| == w
  {
    if order == Little then LittleEndian(v, w) else Reverse(LittleEndian(v, w))
  }

  /** They do not depend on the machine that writes them. */
  lemma HostIndependent(v: nat, w: nat, order: Order, host: Order)
    requires v < Pow256(w)
    ensures FixedBytes(v, w, order, host) == Wire(v, w, order)
  {
    ReverseTwice(LittleEndian(v, w));
  }

  /** A value on the wire reads back as itself on any machine. */
  lemma FixedRoundTrip(v: nat, w: nat, order: Order, reader: Order)
    requires v < Pow256(w)
    ensures FixedValue(Wire(v, w, order), order, reader) == v
  {
    var s := Wire(v, w, order);
    var u := OfImage(s, reader);
    ReverseTwice(LittleEndian(u, w));
    ReverseTwice(LittleEndian(v, w));
    FromLittleInverts(v, w);
    FromLittleInverts(FixedValue(s, order, reader), w);
  }

  // ---- Signed integers -------------------------------------------------------------------

  /** Two's complement, as the C++ conversions between intN_t and uintN_t compute it. */
  function ToUnsigned(x: int, w: nat): (v: nat)
    requires w >= 1 && -(128 * Pow256(w - 1)) <= x < 128 * Pow256(w - 1)
    ensures v < Pow256(w)
  {
    if x < 0 then x + Pow256(w) else x
  }

  function ToSigned(v: nat, w: nat): (x: int)
    requires w >= 1 && v < Pow256(w)
    ensures -(128 * Pow256(w - 1)) <= x < 128 * Pow256(w - 1) && ToUnsigned(x, w) == v
  {
    if v < 128 * Pow256(w - 1) then v else v - Pow256(w)
  }

  /** Zigzag: `-v` wraps at the minimum, where doubling gives 0 and the decrement wraps back. */
  function ZigzagEncode(x: int, w: nat): (v: nat)
    requires w >= 1 && -(128 * Pow256(w - 1)) <= x < 128 * Pow256(w - 1)
    ensures v < Pow256(w)
  {
    if x < 0 then
      var doubled := if -x * 2 == Pow256(w) then 0 else -x * 2;
      if doubled == 0 then Pow256(w) - 1 else doubled - 1
    else x * 2
  }

  /** `(v >> 1) ^ -(v & 1)`: the exclusive or with all ones is the complement. */
  function ZigzagDecode(v: nat, w: nat): (x: int)
    requires w >= 1 && v < Pow256(w)
    ensures -(128 * Pow256(w - 1)) <= x < 128 * Pow256(w - 1)
  {
    ToSigned(if v % 2 == 1 then Pow256(w) - 1 - v / 2 else v / 2, w)
  }

  lemma Halves(h: nat)
    ensures (2 * h) / 2 == h && (2 * h) % 2 == 0 && (2 * h + 1) / 2 == h && (2 * h + 1) % 2 == 1
  {
  }

  lemma ZigzagForth(x: int, w: nat)
    requires w >= 1 && -(128 * Pow256(w - 1)) <= x < 128 * Pow256(w - 1)
    ensures ZigzagDecode(ZigzagEncode(x, w), w) == x
  {
    var h := if x < 0 then -x - 1 else x;
    Halves(h);
    assert ZigzagEncode(x, w) == if x < 0 then 2 * h + 1 else 2 * h;
  }

  lemma ZigzagBack(v: nat, w: nat)
    requires w >= 1 && v < Pow256(w)
    ensures ZigzagEncode(ZigzagDecode(v, w), w) == v
  {
    var h := v / 2;
    assert v == if v % 2 == 1 then 2 * h + 1 else 2 * h;
    assert ZigzagDecode(v, w) == if v % 2 == 1 then -h - 1 else h;
  }

  /** Zigzag is a bijection between the signed and the unsigned integers of a width, the minimum included. */
  lemma ZigzagBijection(x: int, v: nat, w: nat)
    requires w >= 1 && -(128 * Pow256(w - 1)) <= x < 128 * Pow256(w - 1) && v < Pow256(w)
    ensures ZigzagDecode(ZigzagEncode(x, w), w) == x
    ensures ZigzagEncode(ZigzagDecode(v, w), w) == v
  {
    ZigzagForth(x, w);
    ZigzagBack(v, w);
  }

  // ---- Varints ---------------------------------------------------------------------------

  /** Seven bits a byte, least significant first, the high bit set on all but the last. */
  function Varint(v: nat): (s: seq<byte>)
    ensures |s| >= 1
  {
    if v >= 128 then [v % 128 + 128] + Varint(v / 128) else [v]
  }

  lemma {:induction false} ShlAdd(a: nat, b: nat, i: nat)
    ensures Shl(a + b, i) == Shl(a, i) + Shl(b, i)
  {
    if i > 0 { ShlAdd(a, b, i - 1); }
  }

  lemma {:induction false} ShlDouble(v: nat, i: nat)
    ensures Shl(2 * v, i) == Shl(v, i + 1)
  {
    if i > 0 { ShlDouble(v, i - 1); }
  }

  lemma ShlSeven(v: nat, i: nat)
    ensures Shl(128 * v, i) == Shl(v, i + 7)
  {
    ShlDouble(64 * v, i);
    ShlDouble(32 * v, i + 1);
    ShlDouble(16 * v, i + 2);
    ShlDouble(8 * v, i + 3);
    ShlDouble(4 * v, i + 4);
    ShlDouble(2 * v, i + 5);
    ShlDouble(v, i + 6);
  }

  lemma {:induction false} Pow2Mono(i: nat, j: nat)
    requires i <= j
    ensures Pow2(i) <= Pow2(j)
  {
    if i < j { Pow2Mono(i, j - 1); }
  }

  datatype Parsed<+T> = Got(value: T, used: nat) | Short(used: nat)

  /** `x` reduced modulo `m`, as conversion to an unsigned type with `m` values does; by subtraction. */
  function Wrapped(x: nat, m: nat): (r: nat)
    requires m >= 1
    ensures r < m && r <= x && (r == x <==> x < m)
  {
    if x < m then x else Wrapped(x - m, m)
  }

  /**
   The reading loop at offset `at` of `s` and shift `i`, `acc` holding the bits read so far. The
   code ors the shifted bits in; they lie above `acc`, so the or is this addition. Stop at a byte
   below 0x80 or when the shift reaches the width `bits`.
   */
  function VarintAt(s: seq<byte>, at: nat, bits: nat, i: nat, acc: nat): (r: Parsed<nat>)
    requires at <= |s| && acc < Pow2(bits)
    ensures at + r.used <= |s| && (r.Got? ==> r.value < Pow2(bits))
    decreases |s| - at
  {
    if i >= bits then Got(acc, 0)
    else if at == |s| then Short(0)
    else
      var acc' := Wrapped(acc + Shl(s[at] % 128, i), Pow2(bits));
      if s[at] < 128 then Got(acc', 1) else Bumped(VarintAt(s, at + 1, bits, i + 7, acc'), 1)
  }

  /** A parse with `n` more bytes in front. */
  function Bumped<T>(r: Parsed<T>, n: nat): (q: Parsed<T>) {
    if r.Got? then Got(r.value, r.used + n) else Short(r.used + n)
  }

  /** Splitting off the lowest seven bits of a shifted value. */
  lemma SevenBits(v: nat, i: nat, bits: nat)
    requires v >= 128 && Shl(v, i) < Pow2(bits)
    ensures Shl(v, i) == Shl(v / 128, i + 7) + Shl(v % 128, i)
    ensures i + 7 < bits
  {
    ShlAdd(128 * (v / 128), v % 128, i);
    ShlSeven(v / 128, i);
    ShlAdd(1, v / 128 - 1, i + 7);
    if i + 7 >= bits { Pow2Mono(bits, i + 7); }
  }

  /** One round of the reading loop on a continuation byte. */
  lemma VarintRound(s: seq<byte>, at: nat, d: nat, bits: nat, i: nat, acc: nat)
    requires at < |s| && d < 128 && s[at] == d + 128 && i < bits && acc + Shl(d, i) < Pow2(bits)
    ensures VarintAt(s, at, bits, i, acc) == Bumped(VarintAt(s, at + 1, bits, i + 7, acc + Shl(d, i)), 1)
  {
    assert s[at] % 128 == d;
  }

  lemma {:induction false} VarintInverts(s: seq<byte>, at: nat, v: nat, bits: nat, i: nat, acc: nat)
    requires Occurs(s, at, Varint(v)) && acc + Shl(v, i) < Pow2(bits) && i < bits
    ensures VarintAt(s, at, bits, i, acc) == Got(acc + Shl(v, i), |Varint(v)|)
    decreases v
  {
    assert s[at] == Varint(v)[0];
    if v >= 128 {
      SevenBits(v, i, bits);
      OccursSplit(s, at, [v % 128 + 128], Varint(v / 128));
      VarintInverts(s, at + 1, v / 128, bits, i + 7, acc + Shl(v % 128, i));
      VarintRound(s, at, v % 128, bits, i, acc);
    }
  }

  /** Reading a varint where one was written returns it. */
  lemma VarintRoundTrip(s: seq<byte>, at: nat, v: nat, bits: nat)
    requires Occurs(s, at, Varint(v)) && v < Pow2(bits) && bits >= 1
    ensures VarintAt(s, at, bits, 0, 0) == Got(v, |Varint(v)|)
  {
    VarintInverts(s, at, v, bits, 0, 0);
  }

  lemma Pow2Seven(i: nat)
    ensures Pow2(i + 7) == 128 * Pow2(i)
  {
    assert Pow2(i + 7) == 2 * Pow2(i + 6) == 4 * Pow2(i + 5);
    assert Pow2(i + 5) == 2 * Pow2(i + 4) == 4 * Pow2(i + 3);
    assert Pow2(i + 3) == 2 * Pow2(i + 2) == 4 * Pow2(i + 1);
  }

  /** The temporary of `k` bytes in the writing code never overflows. */
  lemma {:induction false} VarintLength(v: nat, k: nat)
    requires k >= 1 && v < Pow2(7 * k)
    ensures |Varint(v)| <= k
  {
    Pow2Seven(7 * (k - 1));
    if v >= 128 { VarintLength(v / 128, k - 1); }
  }

  lemma {:induction false} WidthBits(w: nat)
    ensures Pow2(8 * w) == Pow256(w)
  {
    if w > 0 {
      WidthBits(w - 1);
      var i := 8 * (w - 1);
      Pow2Seven(i);
      assert Pow2(i + 8) == 2 * Pow2(i + 7);
    }
  }
}
