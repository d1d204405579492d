/** The typed read and write methods of the byte buffer, and a whole write-then-read session. */
module TypedIO {
  import opened Bytes
  import opened ByteArrays
  import opened Codec
  import opened TypedValues

  function OrderOf(littleEndian: bool): (o: Order) { if littleEndian then Little else Big }

  // ---- Writing ---------------------------------------------------------------------------

  /** writeFint8 ... writeFuint64 on a machine of byte order `host`. */
  method WriteFixed(ba: ByteArray, v: nat, w: nat, host: Order)
    requires ba.Valid() && v < Pow256(w)
    modifies ba.Repr
    ensures ba.Valid() && fresh(ba.Repr - old(ba.Repr)) && ba.littleEndian == old(ba.littleEndian)
    ensures ba.position == old(ba.position) + w
    ensures ba.capacity == old(ba.capacity) || ba.capacity < ba.position + ba.baseSize
    ensures ba.Data() == Overwrite(old(ba.Data()), old(ba.position), Wire(v, w, OrderOf(ba.littleEndian)))
  {
    var order := OrderOf(ba.littleEndian);
    var value := v;
    if order != host {
      value := ByteSwap(v, w);
    }
    HostIndependent(v, w, order, host);
    ba.Write(Image(value, w, host));
  }

  /** The varint loop into a temporary of `k` bytes; the array bounds are the buffer's. */
  method FillVarint(v: nat, k: nat) returns (s: seq<byte>)
    requires k >= 1 && v < Pow2(7 * k)
    ensures s == Varint(v)
  {
    var tmp := new byte[k];
    var i: nat := 0;
    var value := v;
    VarintLength(v, k);
    while value >= 128
      invariant i + |Varint(value)| <= k
      invariant tmp[..i] + Varint(value) == Varint(v)
      decreases value
    {
      tmp[i] := value % 128 + 128;
      assert tmp[..i + 1] == tmp[..i] + [tmp[i]];
      i := i + 1;
      value := value / 128;
    }
    tmp[i] := value;
    assert tmp[..i + 1] == tmp[..i] + [tmp[i]];
    s := tmp[..i + 1];
  }

  /** writeUint32 and writeUint64: temporaries of five and ten bytes. */
  method WriteVarint(ba: ByteArray, v: nat, w: nat)
    requires ba.Valid() && w in {4, 8} && v < Pow256(w)
    modifies ba.Repr
    ensures ba.Valid() && fresh(ba.Repr - old(ba.Repr)) && ba.littleEndian == old(ba.littleEndian)
    ensures ba.position == old(ba.position) + |Varint(v)|
    ensures ba.capacity == old(ba.capacity) || ba.capacity < ba.position + ba.baseSize
    ensures ba.Data() == Overwrite(old(ba.Data()), old(ba.position), Varint(v))
  {
    var k := if w == 4 then 5 else 10;
    WidthBits(w);
    Pow2Mono(8 * w, 7 * k);
    var tmp := FillVarint(v, k);
    ba.Write(tmp);
  }

  method WriteLength(ba: ByteArray, p: Prefix, n: nat, host: Order)
    requires ba.Valid()
    modifies ba.Repr
    ensures ba.Valid() && fresh(ba.Repr - old(ba.Repr)) && ba.littleEndian == old(ba.littleEndian)
    ensures ba.position == old(ba.position) + |EncodeLength(p, n, OrderOf(ba.littleEndian))|
    ensures ba.capacity == old(ba.capacity) || ba.capacity < ba.position + ba.baseSize
    ensures ba.Data() == Overwrite(old(ba.Data()), old(ba.position), EncodeLength(p, n, OrderOf(ba.littleEndian)))
  {
    var len := StoredLength(p, n);
    if p == Vint {
      WriteVarint(ba, len, 8);
    } else {
      WriteFixed(ba, len, PrefixWidth(p), host);
    }
  }

  /** writeStringF16 ... writeStringVint: the length, then the characters. */
  method WriteText(ba: ByteArray, p: Prefix, s: seq<byte>, host: Order)
    requires ba.Valid()
    modifies ba.Repr
    ensures ba.Valid() && fresh(ba.Repr - old(ba.Repr)) && ba.littleEndian == old(ba.littleEndian)
    ensures ba.position == old(ba.position) + |EncodeLength(p, |s|, OrderOf(ba.littleEndian)) + s|
    ensures ba.capacity == old(ba.capacity) || ba.capacity < ba.position + ba.baseSize
    ensures ba.Data() == Overwrite(old(ba.Data()), old(ba.position), EncodeLength(p, |s|, OrderOf(ba.littleEndian)) + s)
  {
    ghost var head := EncodeLength(p, |s|, OrderOf(ba.littleEndian));
    WriteLength(ba, p, |s|, host);
    ba.Write(s);
    OverwriteMore(old(ba.Data()), old(ba.position), head, s);
  }

  /** One typed write appends exactly the value's encoding. */
  method WriteItem(ba: ByteArray, item: Item, host: Order)
    requires ba.Valid() && Typed(item)
    modifies ba.Repr
    ensures ba.Valid() && fresh(ba.Repr - old(ba.Repr)) && ba.littleEndian == old(ba.littleEndian)
    ensures ba.position == old(ba.position) + |Encode(item, OrderOf(ba.littleEndian))|
    ensures ba.capacity == old(ba.capacity) || ba.capacity < ba.position + ba.baseSize
    ensures ba.Data() == Overwrite(old(ba.Data()), old(ba.position), Encode(item, OrderOf(ba.littleEndian)))
  {
    match item
    case Unsigned(w, v) => WriteFixed(ba, v, w, host);
    case Signed(w, x) => WriteFixed(ba, ToUnsigned(x, w), w, host);
    case VarUnsigned(w, v) => WriteVarint(ba, v, w);
    case VarSigned(w, x) => WriteVarint(ba, ZigzagEncode(x, w), w);
    case Text(p, s) => WriteText(ba, p, s, host);
  }

  // ---- Reading ---------------------------------------------------------------------------

  /** A read's result: a value, the out-of-range exception, or the null current block. */
  datatype Result<+T> = Value(value: T) | Thrown | NullBlock

  /** What reading a number reports. */
  function NumberResult<T>(d: Parsed<T>): (r: Result<T>) {
    if d.Short? then Thrown else Value(d.value)
  }

  /** The next `n` bytes of the data. */
  method Take(ba: ByteArray, n: nat, ghost s: seq<byte>) returns (r: Result<seq<byte>>)
    requires ba.Valid() && ba.Data() == s && (n == 0 ==> ba.position < ba.capacity)
    modifies ba`position, ba`cur, ba`index
    ensures ba.Valid() && ba.Data() == s
    ensures var d := Chars(s, old(ba.position), n); ba.position == old(ba.position) + d.used && r == NumberResult(d)
  {
    var o := ba.Read(n);
    if o.OutOfRange? { return Thrown; }
    r := Value(o.value);
  }

  method ReadFixed(ba: ByteArray, w: nat, host: Order, ghost s: seq<byte>) returns (r: Result<nat>)
    requires ba.Valid() && ba.Data() == s && w >= 1
    modifies ba`position, ba`cur, ba`index
    ensures ba.Valid() && ba.Data() == s
    ensures var d := DecodeUnsigned(w, OrderOf(ba.littleEndian), s, old(ba.position));
            ba.position == old(ba.position) + d.used && r == NumberResult(d)
  {
    ghost var at := ba.position;
    var order := OrderOf(ba.littleEndian);
    var o := Take(ba, w, s);
    if o.Thrown? { return Thrown; }
    var v := ValueOf(o.value, order, host);
    r := Value(v);
  }

  /** The bytes in a variable of the machine, swapped when the buffer's order is not the machine's. */
  method ValueOf(bytes: seq<byte>, order: Order, host: Order) returns (v: nat)
    ensures v == FixedValue(bytes, order, Little)
  {
    v := OfImage(bytes, host);
    if order != host {
      v := ByteSwap(v, |bytes|);
    }
    SameValue(bytes, order, host);
  }

  /** The value read does not depend on the machine. */
  lemma SameValue(s: seq<byte>, order: Order, host: Order)
    ensures FixedValue(s, order, host) == FixedValue(s, order, Little)
  {
    var v := FixedValue(s, order, Little);
    assert Wire(v, |s|, order) == s by { ReverseTwice(s); ReverseTwice(LittleEndian(v, |s|)); }
    FixedRoundTrip(v, |s|, order, host);
  }

  /** readFuint8: the next byte. */
  method ReadByte(ba: ByteArray, ghost s: seq<byte>) returns (r: Result<byte>)
    requires ba.Valid() && ba.Data() == s
    modifies ba`position, ba`cur, ba`index
    ensures ba.Valid() && ba.Data() == s
    ensures if old(ba.position) == |s| then r == Thrown && ba.position == old(ba.position)
            else r == Value(s[old(ba.position)]) && ba.position == old(ba.position) + 1
  {
    var o := ba.Read(1);
    if o.OutOfRange? { return Thrown; }
    r := Value(o.value[0]);
  }

  /** The parse `all` of the data from `at` on goes on at `p`, shift `i`, with `acc` read so far. */
  ghost predicate GoesOn(all: Parsed<nat>, s: seq<byte>, at: nat, p: nat, bits: nat, i: nat, acc: nat) {
    at <= p <= |s| && acc < Pow2(bits) && all == Bumped(VarintAt(s, p, bits, i, acc), p - at)
  }

  lemma AtTheEnd(all: Parsed<nat>, s: seq<byte>, at: nat, p: nat, bits: nat, i: nat, acc: nat)
    requires GoesOn(all, s, at, p, bits, i, acc)
    ensures i >= bits ==> all == Got(acc, p - at)
    ensures i < bits && p == |s| ==> all == Short(p - at)
  {
  }

  /** One round of the loop. */
  lemma OneRound(all: Parsed<nat>, s: seq<byte>, at: nat, p: nat, bits: nat, i: nat, acc: nat, acc': nat)
    requires GoesOn(all, s, at, p, bits, i, acc) && i < bits && p < |s|
             && acc' == Wrapped(acc + Shl(s[p] % 128, i), Pow2(bits))
    ensures if s[p] < 128 then all == Got(acc', p + 1 - at) else GoesOn(all, s, at, p + 1, bits, i + 7, acc')
  {
  }

  /** readUint32 and readUint64: the loop over the shifts below the width. */
  method VarintLoop(ba: ByteArray, bits: nat, ghost s: seq<byte>) returns (r: Result<nat>)
    requires ba.Valid() && ba.Data() == s
    modifies ba`position, ba`cur, ba`index
    ensures ba.Valid() && ba.Data() == s
    ensures ba.position == old(ba.position) + VarintAt(s, old(ba.position), bits, 0, 0).used
    ensures r == NumberResult(VarintAt(s, old(ba.position), bits, 0, 0))
  {
    var result: nat := 0;
    var i := 0;
    ghost var at := ba.position;
    ghost var all := VarintAt(s, at, bits, 0, 0);
    while i < bits
      invariant 0 <= i && ba.Valid() && ba.Data() == s && GoesOn(all, s, at, ba.position, bits, i, result)
    {
      ghost var p, acc := ba.position, result;
      AtTheEnd(all, s, at, p, bits, i, acc);
      var b := ReadByte(ba, s);
      if b.Thrown? { return Thrown; }
      result := Wrapped(result + Shl(b.value % 128, i), Pow2(bits));
      OneRound(all, s, at, p, bits, i, acc, result);
      if b.value < 128 { return Value(result); }
      i := i + 7;
    }
    AtTheEnd(all, s, at, ba.position, bits, i, result);
    r := Value(result);
  }

  method ReadVarint(ba: ByteArray, w: nat, ghost s: seq<byte>) returns (r: Result<nat>)
    requires ba.Valid() && ba.Data() == s && w >= 1
    modifies ba`position, ba`cur, ba`index
    ensures ba.Valid() && ba.Data() == s
    ensures var d := DecodeVarint(w, s, old(ba.position));
            ba.position == old(ba.position) + d.used && r == NumberResult(d)
  {
    r := VarintLoop(ba, 8 * w, s);
  }

  method ReadLength(ba: ByteArray, p: Prefix, host: Order, ghost s: seq<byte>) returns (r: Result<nat>)
    requires ba.Valid() && ba.Data() == s
    modifies ba`position, ba`cur, ba`index
    ensures ba.Valid() && ba.Data() == s
    ensures var d := DecodeLength(p, OrderOf(ba.littleEndian), s, old(ba.position));
            ba.position == old(ba.position) + d.used && r == NumberResult(d)
  {
    if p == Vint {
      r := ReadVarint(ba, PrefixWidth(p), s);
    } else {
      r := ReadFixed(ba, PrefixWidth(p), host, s);
    }
  }

  /** What reading a string reports: an empty one at the very end of the memory meets the null block. */
  function TextResult(d: Parsed<seq<byte>>, atEnd: bool): (r: Result<seq<byte>>) {
    if d.Short? then Thrown else if |d.value| == 0 && atEnd then NullBlock else Value(d.value)
  }

  /** The characters of a string: `buff.resize(len); read(&buff[0], len)`. */
  method ReadChars(ba: ByteArray, len: nat, ghost s: seq<byte>) returns (r: Result<seq<byte>>)
    requires ba.Valid() && ba.Data() == s
    modifies ba`position, ba`cur, ba`index
    ensures ba.Valid() && ba.Data() == s
    ensures var d := Chars(s, old(ba.position), len);
            ba.position == old(ba.position) + d.used && r == TextResult(d, ba.position == ba.capacity)
  {
    if len == 0 && ba.position == ba.capacity { return NullBlock; }
    var o := ba.Read(len);
    if o.OutOfRange? { return Thrown; }
    r := Value(o.value);
  }

  /** The part of a string read after its length was parsed as `d`. */
  method ReadAfter(ba: ByteArray, len: Result<nat>, ghost s: seq<byte>, ghost at: nat, ghost d: Parsed<nat>)
      returns (r: Result<seq<byte>>)
    requires ba.Valid() && ba.Data() == s
    requires at + d.used <= |s| && ba.position == at + d.used && len == NumberResult(d)
    modifies ba`position, ba`cur, ba`index
    ensures ba.Valid() && ba.Data() == s
    ensures ba.position == at + TextAfter(d, s, at).used
            && r == TextResult(TextAfter(d, s, at), ba.position == ba.capacity)
  {
    if len.Thrown? { return Thrown; }
    r := ReadChars(ba, len.value, s);
  }

  method ReadText(ba: ByteArray, p: Prefix, host: Order, ghost s: seq<byte>) returns (r: Result<seq<byte>>)
    requires ba.Valid() && ba.Data() == s
    modifies ba`position, ba`cur, ba`index
    ensures ba.Valid() && ba.Data() == s
    ensures var d := DecodeText(p, OrderOf(ba.littleEndian), s, old(ba.position));
            ba.position == old(ba.position) + d.used && r == TextResult(d, ba.position == ba.capacity)
  {
    ghost var at := ba.position;
    var len := ReadLength(ba, p, host, s);
    r := ReadAfter(ba, len, s, at, DecodeLength(p, OrderOf(ba.littleEndian), s, at));
  }

  predicate EmptyText(i: Item) { i.Text? && |i.s| == 0 }

  /** What a typed read reports. */
  function ItemResult(d: Parsed<Item>, atEnd: bool): (r: Result<Item>) {
    if d.Short? then Thrown else if EmptyText(d.value) && atEnd then NullBlock else Value(d.value)
  }

  /** One typed read takes what `Decode` finds in the data from the position on. */
  method ReadItem(ba: ByteArray, k: Kind, host: Order, ghost s: seq<byte>) returns (r: Result<Item>)
    requires ba.Valid() && ba.Data() == s && KnownKind(k)
    modifies ba`position, ba`cur, ba`index
    ensures ba.Valid() && ba.Data() == s
    ensures var d := Decode(k, OrderOf(ba.littleEndian), s, old(ba.position));
            ba.position == old(ba.position) + d.used && r == ItemResult(d, ba.position == ba.capacity)
  {
    match k
    case TextKind(p) =>
      var t := ReadText(ba, p, host, s);
      r := match t case Value(x) => Value(Text(p, x)) case Thrown => Thrown case NullBlock => NullBlock;
    case _ =>
      r := ReadNumber(ba, k, host, s);
  }

  method ReadNumber(ba: ByteArray, k: Kind, host: Order, ghost s: seq<byte>) returns (r: Result<Item>)
    requires ba.Valid() && ba.Data() == s && KnownKind(k) && !k.TextKind?
    modifies ba`position, ba`cur, ba`index
    ensures ba.Valid() && ba.Data() == s
    ensures var d := Decode(k, OrderOf(ba.littleEndian), s, old(ba.position));
            ba.position == old(ba.position) + d.used && r == NumberResult(d) && !(d.Got? && d.value.Text?)
  {
    var w := k.width;
    var n;
    if k.VarUnsignedKind? || k.VarSignedKind? {
      n := ReadVarint(ba, w, s);
    } else {
      n := ReadFixed(ba, w, host, s);
    }
    if n.Thrown? { return Thrown; }
    r := Value(match k
               case UnsignedKind(_) => Unsigned(w, n.value)
               case SignedKind(_) => Signed(w, ToSigned(n.value, w))
               case VarUnsignedKind(_) => VarUnsigned(w, n.value)
               case VarSignedKind(_) => VarSigned(w, ZigzagDecode(n.value, w)));
  }
}
