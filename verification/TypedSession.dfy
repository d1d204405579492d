/** Writing any values into an empty buffer, going back to the start and reading them again. */
module TypedSession {
  import opened Bytes
  import opened ByteArrays
  import opened Codec
  import opened TypedValues
  import opened TypedIO

  /** Memory is grown by the fewest blocks, so data fills it exactly when it is whole blocks long. */
  lemma FullExactlyAtBlocks(b: nat, n: nat, size: nat)
    requires b >= 1 && 0 < size <= Off(b, n)
    requires n == 1 || Off(b, n) < size + b
    ensures size == Off(b, n) <==> size % b == 0
  {
    var m, r := size / b, size % b;
    assert size == b * m + r;
    OffIsProduct(b, m);
    if m < n { OffMono(b, m, n); } else if n < m { OffMono(b, n, m); }
  }

  /** The growth of a buffer that only ever appended. */
  ghost predicate Tight(ba: ByteArray)
    reads ba, ba.Repr
  {
    && ba.Valid() && ba.position == ba.size
    && (|ba.nodes| == 1 || ba.capacity < ba.size + ba.baseSize)
  }

  method WriteAll(ba: ByteArray, items: seq<Item>, host: Order, ghost codes: seq<seq<byte>>)
    requires Tight(ba) && ba.size == 0 && AllTyped(items) && codes == Codes(items, OrderOf(ba.littleEndian))
    modifies ba.Repr
    ensures Tight(ba) && fresh(ba.Repr - old(ba.Repr)) && ba.littleEndian == old(ba.littleEndian)
    ensures ba.Data() == Flatten(codes)
  {
    for i := 0 to |items|
      invariant Tight(ba) && fresh(ba.Repr - old(ba.Repr)) && ba.littleEndian == old(ba.littleEndian)
      invariant ba.Data() == Flatten(codes[..i])
    {
      FlattenOccurs(codes, i);
      Append(ba, items[i], host);
    }
    assert codes[..|items|] == codes;
  }

  method Append(ba: ByteArray, item: Item, host: Order)
    requires Tight(ba) && Typed(item)
    modifies ba.Repr
    ensures Tight(ba) && fresh(ba.Repr - old(ba.Repr)) && ba.littleEndian == old(ba.littleEndian)
    ensures ba.Data() == old(ba.Data()) + Encode(item, OrderOf(ba.littleEndian))
  {
    OverwriteEnd(ba.Data(), Encode(item, OrderOf(ba.littleEndian)));
    WriteItem(ba, item, host);
    OffIsProduct(ba.baseSize, |ba.nodes|);
  }

  /** The matching read where a value was written returns it, up to the null block. */
  method ReadBack(ba: ByteArray, kind: Kind, host: Order, ghost item: Item, ghost code: seq<byte>, ghost s: seq<byte>)
      returns (r: Result<Item>)
    requires ba.Valid() && ba.Data() == s && Typed(item) && Preserved(item) && kind == KindOf(item)
    requires code == Encode(item, OrderOf(ba.littleEndian)) && Occurs(s, ba.position, code)
    modifies ba`position, ba`cur, ba`index
    ensures ba.Valid() && ba.Data() == s && ba.position == old(ba.position) + |code|
    ensures r == if EmptyText(item) && ba.position == ba.capacity then NullBlock else Value(item)
  {
    ItemRoundTrip(item, OrderOf(ba.littleEndian), s, ba.position);
    r := ReadItem(ba, kind, host, s);
  }

  /** Where piece `i` starts when the pieces follow each other. */
  ghost function Start(pieces: seq<seq<byte>>, i: nat): (at: nat)
    requires i <= |pieces|
  {
    if i == 0 then 0 else Start(pieces, i - 1) + |pieces[i - 1]|
  }

  /** Piece `i` lies in `s` after those before it, and only the last one reaches the end. */
  ghost predicate LaidAt(s: seq<byte>, pieces: seq<seq<byte>>, i: nat)
    requires i < |pieces|
  {
    && Occurs(s, Start(pieces, i), pieces[i])
    && (Start(pieces, i + 1) == |s| <==> i + 1 == |pieces|)
  }

  ghost predicate Laid(s: seq<byte>, pieces: seq<seq<byte>>) {
    forall i: nat :: i < |pieces| ==> LaidAt(s, pieces, i)
  }

  lemma {:induction false} StartIsLength(pieces: seq<seq<byte>>, i: nat)
    requires i <= |pieces|
    ensures Start(pieces, i) == |Flatten(pieces[..i])|
  {
    if i > 0 {
      StartIsLength(pieces, i - 1);
      FlattenOccurs(pieces, i - 1);
    }
  }

  lemma FlattenIsLaid(pieces: seq<seq<byte>>)
    requires forall j :: 0 <= j < |pieces| ==> |pieces[j]| >= 1
    ensures Laid(Flatten(pieces), pieces) && Start(pieces, |pieces|) == |Flatten(pieces)|
  {
    forall i: nat | i < |pieces|
      ensures LaidAt(Flatten(pieces), pieces, i)
    {
      StartIsLength(pieces, i);
      StartIsLength(pieces, i + 1);
      FlattenOccurs(pieces, i);
      FlattenGrows(pieces, i + 1);
    }
    StartIsLength(pieces, |pieces|);
    assert pieces[..|pieces|] == pieces;
  }

  /** Each read is of the kind of the value written there. */
  ghost predicate Matching(kinds: seq<Kind>, items: seq<Item>) {
    |kinds| == |items| && forall j {:trigger KindOf(items[j])} :: 0 <= j < |items| ==> kinds[j] == KindOf(items[j])
  }

  /** Values, their reads and their encodings, in step. */
  ghost predicate Plan(kinds: seq<Kind>, items: seq<Item>, codes: seq<seq<byte>>, order: Order) {
    && |kinds| == |items| == |codes|
    && forall j {:trigger KindOf(items[j])} :: 0 <= j < |items| ==>
         && kinds[j] == KindOf(items[j]) && Typed(items[j]) && Preserved(items[j])
         && codes[j] == Encode(items[j], order)
  }

  /** Reading value number `i`. */
  method ReadNext(ba: ByteArray, kinds: seq<Kind>, host: Order, i: nat,
      ghost items: seq<Item>, ghost codes: seq<seq<byte>>, ghost order: Order, ghost s: seq<byte>)
      returns (r: Result<Item>)
    requires ba.Valid() && ba.Data() == s && i < |items| && Plan(kinds, items, codes, order)
             && order == OrderOf(ba.littleEndian)
    requires Laid(s, codes) && ba.position == Start(codes, i)
    modifies ba`position, ba`cur, ba`index
    ensures ba.Valid() && ba.Data() == s && ba.position == Start(codes, i + 1)
    ensures r == if EmptyText(items[i]) && i + 1 == |items| && ba.size == ba.capacity then NullBlock
            else Value(items[i])
  {
    assert LaidAt(s, codes, i) && kinds[i] == KindOf(items[i]);
    r := ReadBack(ba, kinds[i], host, items[i], codes[i], s);
  }

  /** The matching reads of the values from number `i` on: every one comes back, up to a null block. */
  method ReadRest(ba: ByteArray, kinds: seq<Kind>, host: Order, i: nat,
      ghost items: seq<Item>, ghost codes: seq<seq<byte>>, ghost order: Order, ghost s: seq<byte>)
      returns (values: seq<Item>, nullBlock: bool)
    requires ba.Valid() && ba.Data() == s && i <= |items| && Plan(kinds, items, codes, order)
             && order == OrderOf(ba.littleEndian)
    requires Laid(s, codes) && ba.position == Start(codes, i)
    modifies ba`position, ba`cur, ba`index
    ensures ba.Valid()
    ensures nullBlock <==> i < |items| && EmptyText(items[|items| - 1]) && ba.size == ba.capacity
    ensures !nullBlock ==> values == items[i..] && ba.position == Start(codes, |items|)
    decreases |kinds| - i
  {
    if i == |kinds| { return [], false; }
    var r := ReadNext(ba, kinds, host, i, items, codes, order, s);
    if r.NullBlock? { return [], true; }
    values, nullBlock := ReadRest(ba, kinds, host, i + 1, items, codes, order, s);
    values := [r.value] + values;
  }

  lemma CodesNotEmpty(kinds: seq<Kind>, items: seq<Item>, codes: seq<seq<byte>>, order: Order)
    requires Plan(kinds, items, codes, order)
    ensures forall j :: 0 <= j < |codes| ==> |codes[j]| >= 1
  {
    forall j | 0 <= j < |codes|
      ensures |codes[j]| >= 1
    {
      assert kinds[j] == KindOf(items[j]);
    }
  }

  /** Back to the start, and the matching reads of all values. */
  method ReadAll(ba: ByteArray, kinds: seq<Kind>, host: Order, ghost items: seq<Item>, ghost codes: seq<seq<byte>>)
      returns (values: seq<Item>, left: nat, nullBlock: bool)
    requires ba.Valid() && ba.Data() == Flatten(codes) && Plan(kinds, items, codes, OrderOf(ba.littleEndian))
    modifies ba`position, ba`cur, ba`index, ba`size
    ensures nullBlock <==> items != [] && EmptyText(items[|items| - 1]) && ba.capacity == |Flatten(codes)|
    ensures !nullBlock ==> values == items && left == 0
  {
    var ok := ba.SetPosition(0);
    CodesNotEmpty(kinds, items, codes, OrderOf(ba.littleEndian));
    FlattenIsLaid(codes);
    values, nullBlock := ReadRest(ba, kinds, host, 0, items, codes, OrderOf(ba.littleEndian), Flatten(codes));
    left := ba.GetReadSize();
  }

  lemma PlanOf(kinds: seq<Kind>, items: seq<Item>, order: Order)
    requires AllTyped(items) && Matching(kinds, items)
    ensures Plan(kinds, items, Codes(items, order), order)
  {
  }

  /**
   The whole session, for every block size, either byte order and any machines: the values come
   back and nothing is left to read, unless the last value is an empty string and the data fill
   their blocks exactly, when the read dereferences the null current block.
   */
  method Session(baseSize: nat, littleEndian: bool, items: seq<Item>, kinds: seq<Kind>, writer: Order, reader: Order)
      returns (values: seq<Item>, left: nat, nullBlock: bool)
    requires baseSize >= 1 && AllTyped(items)
    requires Matching(kinds, items)
    ensures nullBlock <==>
              && items != [] && EmptyText(items[|items| - 1])
              && |EncodeAll(items, OrderOf(littleEndian))| % baseSize == 0
    ensures !nullBlock ==> values == items && left == 0
  {
    ghost var codes := Codes(items, OrderOf(littleEndian));
    PlanOf(kinds, items, OrderOf(littleEndian));
    var ba := new ByteArray(baseSize);
    ba.littleEndian := littleEndian;
    WriteAll(ba, items, writer, codes);
    if items != [] {
      FlattenGrows(codes, 0);
      FullExactlyAtBlocks(baseSize, |ba.nodes|, ba.size);
    }
    values, left, nullBlock := ReadAll(ba, kinds, reader, items, codes);
  }

  /** An empty string alone in blocks of one byte cannot be read back. */
  method EmptyTextAtTheEnd() returns (nullBlock: bool)
    ensures nullBlock
  {
    var items := [Text(Vint, [])];
    assert Typed(items[0]) && Preserved(items[0]);
    var _, _, n := Session(1, false, items, [TextKind(Vint)], Little, Little);
    nullBlock := n;
  }
}
