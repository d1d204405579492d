/** Typed values in the byte buffer: what each write appends, what each read takes, and that reads undo writes. */
module TypedValues {
  import opened Bytes
  import opened ByteArrays
  import opened Codec

  datatype Prefix = F16 | F32 | F64 | Vint

  datatype Item =
    | Unsigned(width: nat, v: nat)
    | Signed(width: nat, x: int)
    | VarUnsigned(width: nat, v: nat)
    | VarSigned(width: nat, x: int)
    | Text(prefix: Prefix, s: seq<byte>)

  datatype Kind =
    | UnsignedKind(width: nat)
    | SignedKind(width: nat)
    | VarUnsignedKind(width: nat)
    | VarSignedKind(width: nat)
    | TextKind(prefix: Prefix)

  predicate KnownKind(k: Kind) {
    match k
    case UnsignedKind(w) => w in {1, 2, 4, 8}
    case SignedKind(w) => w in {1, 2, 4, 8}
    case VarUnsignedKind(w) => w in {4, 8}
    case VarSignedKind(w) => w in {4, 8}
    case TextKind(_) => true
  }

  function KindOf(i: Item): (k: Kind) {
    match i
    case Unsigned(w, _) => UnsignedKind(w)
    case Signed(w, _) => SignedKind(w)
    case VarUnsigned(w, _) => VarUnsignedKind(w)
    case VarSigned(w, _) => VarSignedKind(w)
    case Text(p, _) => TextKind(p)
  }

  /** A value of the C++ parameter type. */
  predicate Typed(i: Item) {
    && KnownKind(KindOf(i))
    && match i
       case Unsigned(w, v) => v < Pow256(w)
       case Signed(w, x) => w >= 1 && -(128 * Pow256(w - 1)) <= x < 128 * Pow256(w - 1)
       case VarUnsigned(w, v) => v < Pow256(w)
       case VarSigned(w, x) => w >= 1 && -(128 * Pow256(w - 1)) <= x < 128 * Pow256(w - 1)
       case Text(_, _) => true
  }

  function PrefixWidth(p: Prefix): (w: nat) {
    match p
    case F16 => 2
    case F32 => 4
    case F64 => 8
    case Vint => 8
  }

  /** The string's length converted to the prefix's integer type. */
  function StoredLength(p: Prefix, n: nat): (r: nat)
    ensures r <= n && r < Pow256(PrefixWidth(p)) && (r == n <==> n < Pow256(PrefixWidth(p)))
  {
    Wrapped(n, Pow256(PrefixWidth(p)))
  }

  function EncodeLength(p: Prefix, n: nat, order: Order): (s: seq<byte>)
    ensures |s| >= 1
  {
    if p == Vint then Varint(StoredLength(p, n)) else Wire(StoredLength(p, n), PrefixWidth(p), order)
  }

  function Encode(i: Item, order: Order): (s: seq<byte>)
    requires Typed(i)
    ensures |s| >= 1
  {
    match i
    case Unsigned(w, v) => Wire(v, w, order)
    case Signed(w, x) => Wire(ToUnsigned(x, w), w, order)
    case VarUnsigned(w, v) => Varint(v)
    case VarSigned(w, x) => Varint(ZigzagEncode(x, w))
    case Text(p, s) => EncodeLength(p, |s|, order) + s
  }

  function DecodeUnsigned(w: nat, order: Order, s: seq<byte>, at: nat): (r: Parsed<nat>)
    requires at <= |s|
    ensures at + r.used <= |s| && (r.Got? ==> r.value < Pow256(w))
  {
    if |s| < at + w then Short(0) else Got(FixedValue(s[at..at + w], order, Little), w)
  }

  function DecodeVarint(w: nat, s: seq<byte>, at: nat): (r: Parsed<nat>)
    requires at <= |s|
    ensures at + r.used <= |s| && (r.Got? ==> r.value < Pow256(w))
  {
    WidthBits(w);
    VarintAt(s, at, 8 * w, 0, 0)
  }

  function DecodeLength(p: Prefix, order: Order, s: seq<byte>, at: nat): (r: Parsed<nat>)
    requires at <= |s|
    ensures at + r.used <= |s|
  {
    if p == Vint then DecodeVarint(PrefixWidth(p), s, at) else DecodeUnsigned(PrefixWidth(p), order, s, at)
  }

  /** The next `len` bytes, if they are there. */
  function Chars(s: seq<byte>, at: nat, len: nat): (r: Parsed<seq<byte>>)
    requires at <= |s|
    ensures at + r.used <= |s|
  {
    if |s| < at + len then Short(0) else Got(s[at..at + len], len)
  }

  /** The characters after a length that was parsed as `d`. */
  function TextAfter(d: Parsed<nat>, s: seq<byte>, at: nat): (r: Parsed<seq<byte>>)
    requires at + d.used <= |s|
    ensures at + r.used <= |s|
  {
    if d.Short? then Short(d.used) else Bumped(Chars(s, at + d.used, d.value), d.used)
  }

  function DecodeText(p: Prefix, order: Order, s: seq<byte>, at: nat): (r: Parsed<seq<byte>>)
    requires at <= |s|
    ensures at + r.used <= |s|
  {
    TextAfter(DecodeLength(p, order, s, at), s, at)
  }

  function MapParsed<A, B>(r: Parsed<A>, f: A -> B): (q: Parsed<B>)
    ensures q.used == r.used && q.Got? == r.Got?
  {
    if r.Got? then Got(f(r.value), r.used) else Short(r.used)
  }

  /** What a typed read makes of the bytes at offset `at` of `s`: a value, or too few bytes. */
  function Decode(k: Kind, order: Order, s: seq<byte>, at: nat): (r: Parsed<Item>)
    requires KnownKind(k) && at <= |s|
    ensures at + r.used <= |s|
  {
    match k
    case UnsignedKind(w) => MapParsed(DecodeUnsigned(w, order, s, at), v => Unsigned(w, v))
    case SignedKind(w) =>
      var r := DecodeUnsigned(w, order, s, at);
      if r.Got? then Got(Signed(w, ToSigned(r.value, w)), r.used) else Short(r.used)
    case VarUnsignedKind(w) => MapParsed(DecodeVarint(w, s, at), v => VarUnsigned(w, v))
    case VarSignedKind(w) =>
      var r := DecodeVarint(w, s, at);
      if r.Got? then Got(VarSigned(w, ZigzagDecode(r.value, w)), r.used) else Short(r.used)
    case TextKind(p) => MapParsed(DecodeText(p, order, s, at), t => Text(p, t))
  }

  /** The length fits its prefix; every other value is always preserved. */
  predicate Preserved(i: Item) {
    i.Text? ==> |i.s| < Pow256(PrefixWidth(i.prefix))
  }

  lemma DecodeUnsignedInverts(v: nat, w: nat, order: Order, s: seq<byte>, at: nat)
    requires v < Pow256(w) && Occurs(s, at, Wire(v, w, order))
    ensures DecodeUnsigned(w, order, s, at) == Got(v, w)
  {
    assert s[at..at + w] == Wire(v, w, order) by { OccursIsSlice(s, at, Wire(v, w, order)); }
    assert FixedValue(Wire(v, w, order), order, Little) == v by { FixedRoundTrip(v, w, order, Little); }
  }

  lemma DecodeVarintInverts(v: nat, w: nat, s: seq<byte>, at: nat)
    requires v < Pow256(w) && w >= 1 && Occurs(s, at, Varint(v))
    ensures DecodeVarint(w, s, at) == Got(v, |Varint(v)|)
  {
    WidthBits(w);
    VarintRoundTrip(s, at, v, 8 * w);
  }

  lemma DecodeLengthInverts(p: Prefix, n: nat, order: Order, s: seq<byte>, at: nat)
    requires Occurs(s, at, EncodeLength(p, n, order))
    ensures DecodeLength(p, order, s, at) == Got(StoredLength(p, n), |EncodeLength(p, n, order)|)
  {
    var len := StoredLength(p, n);
    if p == Vint {
      DecodeVarintInverts(len, PrefixWidth(p), s, at);
    } else {
      DecodeUnsignedInverts(len, PrefixWidth(p), order, s, at);
    }
  }

  /** A string always reads back as its first `StoredLength` bytes. */
  lemma TextDecodes(p: Prefix, t: seq<byte>, order: Order, s: seq<byte>, at: nat)
    requires Occurs(s, at, EncodeLength(p, |t|, order) + t)
    ensures var len := StoredLength(p, |t|);
            DecodeText(p, order, s, at) == Got(t[..len], |EncodeLength(p, |t|, order)| + len)
  {
    var head, len := EncodeLength(p, |t|, order), StoredLength(p, |t|);
    OccursSplit(s, at, head, t);
    DecodeLengthInverts(p, |t|, order, s, at);
    TextFollows(s, at, |head|, t, len);
  }

  lemma TextFollows(s: seq<byte>, at: nat, n: nat, t: seq<byte>, len: nat)
    requires Occurs(s, at + n, t) && len <= |t|
    ensures TextAfter(Got(len, n), s, at) == Got(t[..len], n + len)
  {
    CharsOccur(s, at + n, t, len);
  }

  lemma CharsOccur(s: seq<byte>, at: nat, t: seq<byte>, len: nat)
    requires Occurs(s, at, t) && len <= |t|
    ensures Chars(s, at, len) == Got(t[..len], len)
  {
    assert s[at..at + len] == t[..len];
  }

  lemma TextRoundTrip(p: Prefix, t: seq<byte>, order: Order, s: seq<byte>, at: nat)
    requires Occurs(s, at, EncodeLength(p, |t|, order) + t)
    ensures DecodeText(p, order, s, at) == Got(t, |EncodeLength(p, |t|, order) + t|) <==> |t| < Pow256(PrefixWidth(p))
  {
    TextDecodes(p, t, order, s, at);
    var len := StoredLength(p, |t|);
    assert len == |t| ==> t[..len] == t;
  }

  lemma SignedRoundTrip(w: nat, x: int, order: Order, s: seq<byte>, at: nat)
    requires Typed(Signed(w, x)) && Occurs(s, at, Encode(Signed(w, x), order))
    ensures Decode(SignedKind(w), order, s, at) == Got(Signed(w, x), w)
  {
    DecodeUnsignedInverts(ToUnsigned(x, w), w, order, s, at);
  }

  lemma VarSignedRoundTrip(w: nat, x: int, order: Order, s: seq<byte>, at: nat)
    requires Typed(VarSigned(w, x)) && Occurs(s, at, Encode(VarSigned(w, x), order))
    ensures Decode(VarSignedKind(w), order, s, at) == Got(VarSigned(w, x), |Encode(VarSigned(w, x), order)|)
  {
    DecodeVarintInverts(ZigzagEncode(x, w), w, s, at);
    ZigzagBijection(x, 0, w);
  }

  /** A typed read undoes the typed write exactly when the string's length fits its prefix. */
  lemma ItemRoundTrip(i: Item, order: Order, s: seq<byte>, at: nat)
    requires Typed(i) && Occurs(s, at, Encode(i, order))
    ensures Decode(KindOf(i), order, s, at) == Got(i, |Encode(i, order)|) <==> Preserved(i)
  {
    match i
    case Unsigned(w, v) => DecodeUnsignedInverts(v, w, order, s, at);
    case Signed(w, x) => SignedRoundTrip(w, x, order, s, at);
    case VarUnsigned(w, v) => DecodeVarintInverts(v, w, s, at);
    case VarSigned(w, x) => VarSignedRoundTrip(w, x, order, s, at);
    case Text(p, t) => TextRoundTrip(p, t, order, s, at);
  }

  ghost predicate AllTyped(items: seq<Item>) {
    forall i {:trigger Typed(items[i])} :: 0 <= i < |items| ==> Typed(items[i]) && Preserved(items[i])
  }

  /** The encodings of the values. */
  ghost function Codes(items: seq<Item>, order: Order): (codes: seq<seq<byte>>)
    requires AllTyped(items)
    ensures |codes| == |items|
    ensures forall i :: 0 <= i < |items| ==> codes[i] == Encode(items[i], order) && |codes[i]| >= 1
  {
    seq(|items|, i requires 0 <= i < |items| => Encode(items[i], order))
  }

  /** The encodings one after the other. */
  ghost function EncodeAll(items: seq<Item>, order: Order): (s: seq<byte>)
    requires AllTyped(items)
  {
    Flatten(Codes(items, order))
  }

  /** A string of 65536 bytes behind a 16-bit length reads back as nothing. */
  lemma LongTextIsCut(t: seq<byte>, order: Order, s: seq<byte>, at: nat)
    requires |t| == 65536 && Occurs(s, at, Encode(Text(F16, t), order))
    ensures Decode(TextKind(F16), order, s, at) == Got(Text(F16, []), 2)
  {
    TextDecodes(F16, t, order, s, at);
    NothingStored(|t|, order);
    ItemOfText(F16, order, s, at, [], 2);
  }

  lemma ItemOfText(p: Prefix, order: Order, s: seq<byte>, at: nat, t: seq<byte>, n: nat)
    requires at <= |s| && DecodeText(p, order, s, at) == Got(t, n)
    ensures Decode(TextKind(p), order, s, at) == Got(Text(p, t), n)
  {
  }

  lemma NothingStored(n: nat, order: Order)
    requires n == 65536
    ensures StoredLength(F16, n) == 0 && |EncodeLength(F16, n, order)| == 2
  {
    assert Pow256(2) == n by { assert Pow256(1) == 256; }
    assert Wrapped(n, n) == Wrapped(0, n);
  }
}
