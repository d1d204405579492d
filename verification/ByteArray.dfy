/**
 The block-list byte buffer: a singly linked list of equal-sized blocks with a cached
 current block, behaving like one flat byte sequence.
 */
module ByteArrays {
  import opened Bytes

  datatype Outcome<+T> = Ok(value: T) | OutOfRange

  /** A window of memory handed to scatter/gather I/O. */
  datatype IoVec = IoVec(base: array<byte>, off: nat, len: nat)

  class Node {
    const ptr: array<byte>
    const size: nat
    var next: Node?

    constructor (s: nat)
      ensures fresh(ptr) && ptr.Length == s && size == s && next == null
    {
      ptr := new byte[s];
      size := s;
      next := null;
    }
  }

  // ---- Arithmetic of blocks -------------------------------------------------------------

  /** Offset of block `k`, k * b, by addition so that the solver meets no products. */
  ghost function Off(b: nat, k: nat): (r: nat) {
    if k == 0 then 0 else Off(b, k - 1) + b
  }

  lemma {:induction false} OffIsProduct(b: nat, k: nat)
    ensures Off(b, k) == k * b
  {
    if k > 0 {
      OffIsProduct(b, k - 1);
      assert k * b == (k - 1) * b + b;
    }
  }

  lemma {:induction false} OffMono(b: nat, j: nat, k: nat)
    requires j < k
    ensures Off(b, j) + b <= Off(b, k)
    decreases k
  {
    if j < k - 1 { OffMono(b, j, k - 1); }
  }

  lemma LastOff(b: nat, k: nat, n: nat)
    requires k < n && b >= 1
    ensures Off(b, k) + b <= Off(b, n)
    ensures Off(b, k) + b < Off(b, n) <==> k < n - 1
  {
    OffMono(b, k, n);
    if k < n - 1 { OffMono(b, k + 1, n); }
  }

  /** `p` lies in block `i`. */
  ghost predicate InBlock(b: nat, i: nat, p: nat) {
    Off(b, i) <= p < Off(b, i) + b
  }

  lemma IndexUnique(b: nat, i: nat, j: nat, p: nat)
    requires InBlock(b, i, p) && InBlock(b, j, p)
    ensures i == j
  {
    if i < j { OffMono(b, i, j); } else if j < i { OffMono(b, j, i); }
  }

  lemma IndexIsQuotient(b: nat, i: nat, p: nat)
    requires b >= 1 && InBlock(b, i, p)
    ensures i == p / b && p % b == p - Off(b, i)
  {
    var q := p / b;
    assert p == b * q + p % b;
    OffIsProduct(b, q);
    IndexUnique(b, i, q, p);
  }

  /** The memory held by a list of blocks. */
  ghost function Flatten(blocks: seq<seq<byte>>): seq<byte> {
    if blocks == [] then [] else Flatten(blocks[..|blocks| - 1]) + blocks[|blocks| - 1]
  }

  ghost predicate Sized(blocks: seq<seq<byte>>, b: nat) {
    forall k :: 0 <= k < |blocks| ==> |blocks[k]| == b
  }

  lemma {:induction false} FlattenLength(blocks: seq<seq<byte>>, b: nat)
    requires Sized(blocks, b)
    ensures |Flatten(blocks)| == Off(b, |blocks|)
  {
    if blocks != [] { FlattenLength(blocks[..|blocks| - 1], b); }
  }

  lemma {:induction false} FlattenPrefix(less: seq<seq<byte>>, more: seq<seq<byte>>)
    requires less <= more
    ensures Flatten(less) <= Flatten(more)
    decreases |more|
  {
    if |less| == |more| {
      assert less == more;
    } else {
      FlattenPrefix(less, more[..|more| - 1]);
    }
  }

  /** Each piece sits right after those before it. */
  lemma {:induction false} FlattenOccurs(pieces: seq<seq<byte>>, i: nat)
    requires i < |pieces|
    ensures Occurs(Flatten(pieces), |Flatten(pieces[..i])|, pieces[i])
    ensures Flatten(pieces[..i + 1]) == Flatten(pieces[..i]) + pieces[i]
  {
    var last := |pieces| - 1;
    assert pieces[..i + 1][..i] == pieces[..i];
    if i < last {
      FlattenOccurs(pieces[..last], i);
      assert pieces[..last][..i] == pieces[..i];
    }
  }

  /** Only all of the pieces, none of them empty, take up all of the bytes. */
  lemma {:induction false} FlattenGrows(pieces: seq<seq<byte>>, i: nat)
    requires i <= |pieces| && forall j :: 0 <= j < |pieces| ==> |pieces[j]| >= 1
    ensures |Flatten(pieces[..i])| <= |Flatten(pieces)|
    ensures |Flatten(pieces[..i])| == |Flatten(pieces)| <==> i == |pieces|
  {
    if i == |pieces| {
      assert pieces[..i] == pieces;
    } else {
      FlattenGrows(pieces[..|pieces| - 1], i);
      assert pieces[..|pieces| - 1][..i] == pieces[..i];
    }
  }

  /** A window inside block `k` of the flattened memory. */
  lemma {:induction false} FlattenWindow(blocks: seq<seq<byte>>, b: nat, k: nat, lo: nat, hi: nat)
    requires Sized(blocks, b) && k < |blocks| && lo <= hi <= b
    ensures Off(b, k) + hi <= |Flatten(blocks)|
    ensures Flatten(blocks)[Off(b, k) + lo..Off(b, k) + hi] == blocks[k][lo..hi]
  {
    var init := blocks[..|blocks| - 1];
    FlattenLength(init, b);
    if k < |init| { FlattenWindow(init, b, k, lo, hi); }
    SliceOfAppend(Flatten(init), blocks[|blocks| - 1], Off(b, k) + lo, Off(b, k) + hi);
  }

  /** Patching inside block `k` patches the flattened memory. */
  lemma {:induction false} FlattenPatch(blocks: seq<seq<byte>>, b: nat, k: nat, npos: nat, bytes: seq<byte>)
    requires Sized(blocks, b) && k < |blocks| && npos + |bytes| <= b
    ensures Off(b, k) + b <= |Flatten(blocks)|
    ensures Flatten(blocks[k := Patch(blocks[k], npos, bytes)]) == Patch(Flatten(blocks), Off(b, k) + npos, bytes)
  {
    var last := |blocks| - 1;
    var init := blocks[..last];
    var blocks' := blocks[k := Patch(blocks[k], npos, bytes)];
    FlattenLength(init, b);
    if k < last {
      FlattenPatch(init, b, k, npos, bytes);
      assert blocks'[..last] == init[k := Patch(init[k], npos, bytes)];
      PatchAppend(Flatten(init), Off(b, k) + npos, bytes, blocks[last]);
    } else {
      assert blocks'[..last] == init;
      PatchPrepend(Flatten(init), blocks[last], npos, bytes);
    }
  }

  /** The fewest blocks of `b` bytes that hold `n` bytes. */
  method BlocksFor(n: nat, b: nat) returns (c: nat)
    requires b >= 1 && n >= 1
    ensures c >= 1 && n <= Off(b, c) < n + b
  {
    c := (n + b - 1) / b;
    assert n + b - 1 == b * c + (n + b - 1) % b;
    OffIsProduct(b, c);
  }

  ghost predicate Owned(nodes: seq<Node>, repr: set<object>) {
    forall i :: 0 <= i < |nodes| ==> nodes[i] in repr && nodes[i].ptr in repr
  }

  ghost predicate Uniform(nodes: seq<Node>, b: nat) {
    forall i :: 0 <= i < |nodes| ==> nodes[i].size == b && nodes[i].ptr.Length == b
  }

  /** A pair of list places; names the instances of `Distinct` that a proof needs. */
  ghost predicate Places(i: nat, j: nat) { i < j }

  ghost predicate Distinct(nodes: seq<Node>) {
    forall i: nat, j: nat {:trigger Places(i, j)} :: Places(i, j) && j < |nodes| ==>
        nodes[i] != nodes[j] && nodes[i].ptr != nodes[j].ptr
  }

  /** `v` is the part of block `k`, held by `ptr`, that lies between the offsets `lo` and `hi`. */
  ghost predicate IsWindow(v: IoVec, ptr: array<byte>, b: nat, k: nat, lo: nat, hi: nat) {
    && lo < hi && Off(b, k) < hi && lo < Off(b, k) + b
    && v.base == ptr
    && Off(b, k) + v.off == Max(lo, Off(b, k))
    && Off(b, k) + v.off + v.len == Min(hi, Off(b, k) + b)
  }

  class ByteArray {
    const baseSize: nat
    var position: nat
    var capacity: nat
    var size: nat
    var littleEndian: bool
    const root: Node
    var cur: Node?

    /** The blocks in list order, what each holds, and the number of the current block. */
    ghost var nodes: seq<Node>
    ghost var blocks: seq<seq<byte>>
    ghost var index: nat
    ghost var Repr: set<object>

    /** The list structure: root first, null-terminated, no sharing. */
    ghost predicate Chain()
      reads this`nodes, this`Repr, Repr - {this}
    {
      && this in Repr && |nodes| > 0 && nodes[0] == root
      && Owned(nodes, Repr) && Uniform(nodes, baseSize) && Distinct(nodes)
      && (forall i {:trigger nodes[i].next} :: 0 <= i < |nodes| - 1 ==> nodes[i].next == nodes[i + 1])
      && nodes[|nodes| - 1].next == null
    }

    /** The list holds the memory `Flatten(blocks)`. */
    ghost predicate Holds()
      reads this`nodes, this`blocks, this`capacity, this`Repr, Repr - {this}
    {
      && baseSize >= 1
      && Chain()
      && |blocks| == |nodes| && Sized(blocks, baseSize) && capacity == Off(baseSize, |nodes|)
      && (forall k :: 0 <= k < |nodes| ==> nodes[k].ptr[..] == blocks[k])
    }

    /** Everything but the ordering of `position` and `size`, which `Write` restores last. */
    ghost predicate Shape()
      reads this, Repr
    {
      && Holds()
      && position <= capacity
      && index <= |nodes| && InBlock(baseSize, index, position)
      && cur == (if index < |nodes| then nodes[index] else null)
    }

    ghost predicate Valid()
      reads this, Repr
    {
      Shape() && position <= size <= capacity
    }

    ghost function Memory(): (m: seq<byte>)
      reads this`blocks
    {
      Flatten(blocks)
    }

    /** The abstract value: the bytes written so far, as one sequence. */
    ghost function Data(): (d: seq<byte>)
      requires Valid()
      reads this, Repr
      ensures |d| == size
    {
      FlattenLength(blocks, baseSize);
      Memory()[..size]
    }

    /** The cached block is node number position / baseSize, and null exactly at the end of the memory. */
    lemma CurrentBlock()
      requires Valid()
      ensures index == position / baseSize
      ensures cur == null <==> position == capacity
      ensures position < capacity ==> position / baseSize < |nodes| && cur == nodes[position / baseSize]
    {
      IndexIsQuotient(baseSize, index, position);
      if index < |nodes| { OffMono(baseSize, index, |nodes|); }
    }

    constructor (base_size: nat)
      requires base_size >= 1
      ensures Valid() && fresh(Repr) && |nodes| == 1
      ensures baseSize == base_size && capacity == base_size
      ensures position == 0 && size == 0 && !littleEndian && Data() == []
    {
      baseSize := base_size;
      position := 0;
      capacity := base_size;
      size := 0;
      littleEndian := false;
      var n := new Node(base_size);
      root := n;
      cur := n;
      nodes := [n];
      index := 0;
      blocks := [n.ptr[..]];
      Repr := {this, n, n.ptr};
    }

    function GetReadSize(): (r: nat)
      requires position <= size
      reads this
    {
      size - position
    }

    /** The last block of the list. */
    method Tail() returns (tmp: Node)
      requires Holds()
      ensures tmp == nodes[|nodes| - 1]
    {
      tmp := root;
      ghost var t := 0;
      while tmp.next != null
        invariant 0 <= t < |nodes| && tmp == nodes[t]
        invariant tmp.next == if t < |nodes| - 1 then nodes[t + 1] else null
        decreases |nodes| - t
      {
        tmp := tmp.next;
        t := t + 1;
      }
    }

    /** One round of the growing loop: a new block after the last one. */
    method AppendBlock(last: Node) returns (n: Node)
      requires Holds() && last == nodes[|nodes| - 1]
      modifies this`capacity, this`nodes, this`blocks, this`Repr, last
      ensures Holds() && fresh(Repr - old(Repr)) && fresh(n)
      ensures nodes == old(nodes) + [n]
      ensures old(blocks) <= blocks && capacity == old(capacity) + baseSize
    {
      n := new Node(baseSize);
      last.next := n;
      capacity := capacity + baseSize;
      blocks := blocks + [n.ptr[..]];
      nodes := nodes + [n];
      Repr := Repr + {n, n.ptr};
    }

    /** The growing loop: `count` new blocks; `first` is the first of them. */
    method AppendBlocks(last: Node, count: nat) returns (first: Node?)
      requires Holds() && last == nodes[|nodes| - 1]
      modifies this`capacity, this`nodes, this`blocks, this`Repr, last
      ensures Holds() && fresh(Repr - old(Repr))
      ensures old(nodes) <= nodes && |nodes| == old(|nodes|) + count
      ensures old(blocks) <= blocks && capacity == old(capacity) + Off(baseSize, count)
      ensures first == if count == 0 then null else nodes[old(|nodes|)]
    {
      var tmp := last;
      first := null;
      var i := 0;
      while i < count
        invariant 0 <= i <= count
        invariant Holds()
        invariant |nodes| == old(|nodes|) + i && old(nodes) <= nodes
        invariant fresh(Repr - old(Repr))
        invariant tmp == nodes[|nodes| - 1] && (tmp == last || fresh(tmp))
        invariant old(blocks) <= blocks && capacity == old(capacity) + Off(baseSize, i)
        invariant first == if i == 0 then null else nodes[old(|nodes|)]
      {
        tmp := AppendBlock(tmp);
        if first == null { first := tmp; }
        i := i + 1;
      }
    }

    /** The growing half of `AddCapacity`. */
    method Grow(n: nat)
      requires Shape() && capacity - position < n
      modifies this`capacity, this`cur, this`nodes, this`blocks, this`Repr, Repr - {this}
      ensures Shape() && fresh(Repr - old(Repr))
      ensures old(nodes) <= nodes && old(blocks) <= blocks
      ensures position + n <= capacity < position + n + baseSize
    {
      var oldCap := capacity - position;
      assert oldCap == 0 <==> index == |nodes| by {
        if index < |nodes| { OffMono(baseSize, index, |nodes|); }
      }
      var count := BlocksFor(n - oldCap, baseSize);
      var tmp := Tail();
      var first := AppendBlocks(tmp, count);
      if oldCap == 0 {
        cur := first;
      }
    }

    /** Grow by the fewest whole blocks that make room for `n` more bytes. */
    method AddCapacity(n: nat)
      requires Valid()
      modifies this`capacity, this`cur, this`nodes, this`blocks, this`Repr, Repr - {this}
      ensures Valid() && fresh(Repr - old(Repr))
      ensures old(Memory()) <= Memory() && Data() == old(Data())
      ensures position + n <= capacity && (n > 0 ==> cur != null)
      ensures capacity == old(capacity) || capacity < position + n + baseSize
    {
      FlattenLength(blocks, baseSize);
      if n > 0 && capacity - position < n {
        Grow(n);
        FlattenPrefix(old(blocks), blocks);
      }
      CurrentBlock();
    }

    /** memcpy into block `k`. */
    method CopyIn(target: array<byte>, ghost k: nat, npos: nat, bytes: seq<byte>)
      requires Holds() && k < |nodes| && target == nodes[k].ptr && npos + |bytes| <= baseSize
      modifies this`blocks, target
      ensures Holds() && Off(baseSize, k) + baseSize <= |old(Memory())|
      ensures Memory() == Patch(old(Memory()), Off(baseSize, k) + npos, bytes)
    {
      FlattenPatch(blocks, baseSize, k, npos, bytes);
      forall j: nat | j < |nodes| && j != k
        ensures nodes[j].ptr != target
      {
        assert Places(j, k) || Places(k, j);
      }
      forall j | 0 <= j < |bytes| {
        target[npos + j] := bytes[j];
      }
      assert target[..] == Patch(old(target[..]), npos, bytes);
      blocks := blocks[k := Patch(blocks[k], npos, bytes)];
    }

    /** Where the position lies in its block. */
    method BlockOffset() returns (npos: nat)
      requires Shape()
      ensures npos == position - Off(baseSize, index) && npos < baseSize
    {
      IndexIsQuotient(baseSize, index, position);
      npos := position % baseSize;
    }

    /** Advance the position by `n` inside the current block, stepping to the next block when it is used up. */
    method MoveOn(n: nat, crossing: bool)
      requires Shape() && cur != null
      requires position + n <= Off(baseSize, index) + baseSize
      requires crossing <==> position + n == Off(baseSize, index) + baseSize
      modifies this`position, this`cur, this`index
      ensures Shape() && position == old(position) + n
      ensures crossing ==> position == Off(baseSize, index)
    {
      OffMono(baseSize, index, |nodes|);
      if crossing {
        cur := cur.next;
        index := index + 1;
      }
      position := position + n;
    }

    /** One memcpy of the writing loop and the move past it; `buf[..bpos]` is already written at `start`. */
    method PutBytes(npos: nat, buf: seq<byte>, bpos: nat, n: nat, crossing: bool, ghost mem: seq<byte>,
        ghost start: nat)
      requires Shape() && cur != null && npos == position - Off(baseSize, index)
      requires bpos + n <= |buf| && npos + n <= baseSize && (crossing <==> npos + n == baseSize)
      requires position == start + bpos && Wrote(Memory(), mem, start, buf, bpos)
      modifies this`position, this`cur, this`index, this`blocks, Repr - {this}
      ensures Shape() && position == old(position) + n
      ensures crossing ==> position == Off(baseSize, index)
      ensures Wrote(Memory(), mem, start, buf, bpos + n)
    {
      var piece := buf[bpos..bpos + n];
      CopyIn(cur.ptr, index, npos, piece);
      WroteMore(old(Memory()), mem, start, buf, bpos, n);
      MoveOn(n, crossing);
    }

    /** The copying loop of `Write`, over memory that is large enough. */
    method WriteBlocks(buf: seq<byte>)
      requires Shape() && |buf| > 0 && position + |buf| <= capacity
      modifies this`position, this`cur, this`index, this`blocks, Repr - {this}
      ensures Shape() && position == old(position) + |buf|
      ensures Wrote(Memory(), old(Memory()), old(position), buf, |buf|)
    {
      var left: nat := |buf|;
      var npos := BlockOffset();
      var ncap := cur.size - npos;
      var bpos: nat := 0;
      ghost var mem, start := Memory(), position;
      while left > 0
        invariant Shape() && bpos + left == |buf| && position == start + bpos
        invariant left > 0 ==> cur != null && npos == position - Off(baseSize, index) && ncap == baseSize - npos
        invariant Wrote(Memory(), mem, start, buf, bpos)
      {
        var n := if ncap >= left then left else ncap;
        PutBytes(npos, buf, bpos, n, ncap <= left, mem, start);
        bpos := bpos + n;
        left := left - n;
        if left > 0 {
          ncap := cur.size;
          npos := 0;
        }
      }
    }

    /** `Write` into memory that is large enough. */
    method WriteGrown(buf: seq<byte>)
      requires Valid() && |buf| > 0 && position + |buf| <= capacity
      modifies this`position, this`size, this`cur, this`index, this`blocks, Repr - {this}
      ensures Valid() && position == old(position) + |buf|
      ensures Data() == Overwrite(old(Data()), old(position), buf)
    {
      FlattenLength(blocks, baseSize);
      ghost var mem := Memory();
      WriteBlocks(buf);
      if position > size {
        size := position;
      }
      WroteAll(Memory(), mem, old(position), buf, old(size));
    }

    /** The writing operation on the flat sequence, whatever the block size. */
    method Write(buf: seq<byte>)
      requires Valid()
      modifies Repr
      ensures Valid() && fresh(Repr - old(Repr))
      ensures littleEndian == old(littleEndian)
      ensures position == old(position) + |buf|
      ensures capacity == old(capacity) || capacity < position + baseSize
      ensures Data() == Overwrite(old(Data()), old(position), buf)
    {
      if |buf| > 0 {
        AddCapacity(|buf|);
        WriteGrown(buf);
      }
    }

    /** One memcpy of the reading loop and the move past it. */
    method TakeBytes(npos: nat, n: nat, crossing: bool) returns (piece: seq<byte>)
      requires Shape() && cur != null && npos == position - Off(baseSize, index)
      requires npos + n <= baseSize && (crossing <==> npos + n == baseSize)
      modifies this`position, this`cur, this`index
      ensures Shape() && position == old(position) + n
      ensures crossing ==> position == Off(baseSize, index)
      ensures position <= |Memory()| && piece == Memory()[old(position)..position]
    {
      FlattenWindow(blocks, baseSize, index, npos, npos + n);
      piece := cur.ptr[npos..npos + n];
      assert piece == blocks[index][npos..npos + n];
      MoveOn(n, crossing);
    }

    /**
     The reading operation: the next `n` bytes of the flat sequence, or an exception when
     fewer are left. A read of nothing at the very end of the memory would dereference the
     null current block, which is why it is excluded.
     */
    method Read(n: nat) returns (r: Outcome<seq<byte>>)
      requires Valid() && (n == 0 ==> position < capacity)
      modifies this`position, this`cur, this`index
      ensures Valid() && Data() == old(Data())
      ensures n > old(GetReadSize()) ==> r == OutOfRange && position == old(position)
      ensures n <= old(GetReadSize()) ==> position == old(position) + n && r == Ok(Data()[old(position)..position])
    {
      if n > GetReadSize() { return OutOfRange; }
      CurrentBlock();
      FlattenLength(blocks, baseSize);
      var out := ReadBlocks(n);
      SliceOfTake(Memory(), size, old(position), position);
      r := Ok(out);
    }

    /** The copying loop of `Read`. */
    method ReadBlocks(n: nat) returns (out: seq<byte>)
      requires Shape() && cur != null && position + n <= capacity
      modifies this`position, this`cur, this`index
      ensures Shape() && position == old(position) + n <= |Memory()|
      ensures out == Memory()[old(position)..position]
    {
      FlattenLength(blocks, baseSize);
      var left: nat := n;
      var npos := BlockOffset();
      var ncap := cur.size - npos;
      out := [];
      while left > 0
        invariant Shape() && left <= n && position == old(position) + (n - left)
        invariant left > 0 ==> cur != null && npos == position - Off(baseSize, index) && ncap == baseSize - npos
        invariant out == Memory()[old(position)..position]
      {
        var m := if ncap >= left then left else ncap;
        ghost var before := position;
        var piece := TakeBytes(npos, m, ncap <= left);
        SliceMore(Memory(), old(position), before, position);
        out := out + piece;
        left := left - m;
        if left > 0 {
          ncap := cur.size;
          npos := 0;
        }
      }
    }

    /**
     Move the position anywhere in the memory; moving past the data makes the bytes in
     between part of it.
     */
    method SetPosition(v: nat) returns (ok: bool)
      requires Valid()
      modifies this`position, this`size, this`cur, this`index
      ensures Valid()
      ensures ok <==> v <= capacity
      ensures !ok ==> position == old(position) && size == old(size)
      ensures ok ==> position == v && size == Max(old(size), v)
      ensures old(Data()) <= Data() && (v <= old(size) ==> Data() == old(Data()))
    {
      if v > capacity { return false; }
      FlattenLength(blocks, baseSize);
      position := v;
      if position > size {
        size := position;
      }
      SeekBlock(v);
      ok := true;
    }

    /** The walk from the root to the block of the position. */
    method SeekBlock(v: nat)
      requires Holds() && v == position <= capacity
      modifies this`cur, this`index
      ensures Shape()
    {
      var rest := v;
      var node := root;
      ghost var k: nat := 0;
      while rest > node.size
        invariant k < |nodes| && node == nodes[k]
        invariant rest + Off(baseSize, k) == v && 0 <= rest
        decreases rest
      {
        LastOff(baseSize, k, |nodes|);
        rest := rest - node.size;
        node := node.next;
        k := k + 1;
      }
      LastOff(baseSize, k, |nodes|);
      if rest == node.size {
        cur := node.next;
        index := k + 1;
      } else {
        cur := node;
        index := k;
      }
    }

    method Clear()
      requires Valid()
      modifies Repr
      ensures Valid() && fresh(Repr - old(Repr))
      ensures littleEndian == old(littleEndian)
      ensures position == 0 && capacity == baseSize && Data() == []
    {
      position := 0;
      size := 0;
      capacity := baseSize;
      cur := root;
      root.next := null;
      nodes := [root];
      blocks := [blocks[0]];
      index := 0;
      Repr := {this, root, root.ptr};
    }

    // ---- Scatter/gather windows ---------------------------------------------------------

    /** `iovs` are the windows, block by block, of the `total` bytes of memory from the position on. */
    ghost predicate Spans(iovs: seq<IoVec>, total: nat)
      reads this`nodes, this`index, this`position
    {
      && index + |iovs| <= |nodes| && InBlock(baseSize, index, position)
      && (forall i :: 0 <= i < |iovs| ==> IsWindow(iovs[i], nodes[index + i].ptr, baseSize, index + i, position,
           position + total))
      && position + total <= Off(baseSize, index + |iovs|)
    }

    /** The window loop shared by the two buffer getters. */
    method Windows(total: nat) returns (iovs: seq<IoVec>)
      requires Shape() && cur != null && 0 < total && position + total <= capacity
      ensures Spans(iovs, total)
    {
      iovs := [];
      var len: nat := total;
      var node := cur;
      var npos := BlockOffset();
      var ncap := node.size - npos;
      ghost var k := index;
      while len > 0
        invariant len <= total && k == index + |iovs| <= |nodes|
        invariant forall i :: 0 <= i < |iovs| ==> IsWindow(iovs[i], nodes[index + i].ptr, baseSize, index + i,
                  position, position + total)
        invariant len > 0 ==> k < |nodes| && node == nodes[k] && npos < baseSize && ncap == baseSize - npos
        invariant len > 0 ==> position + total - len == Off(baseSize, k) + npos == Max(position, Off(baseSize, k))
        invariant len == 0 ==> position + total <= Off(baseSize, k)
      {
        LastOff(baseSize, k, |nodes|);
        assert Off(baseSize, k + 1) == Off(baseSize, k) + baseSize;
        var v := IoVec(node.ptr, npos, if ncap >= len then len else ncap);
        assert IsWindow(v, nodes[k].ptr, baseSize, k, position, position + total);
        iovs := iovs + [v];
        len := len - v.len;
        if len > 0 {
          assert nodes[k].next == nodes[k + 1];
          node := node.next;
          ncap := node.size;
          npos := 0;
        }
        k := k + 1;
      }
    }

    method GetReadBuffers(len: nat) returns (total: nat, iovs: seq<IoVec>)
      requires Valid()
      ensures total == Min(len, GetReadSize())
      ensures if total == 0 then iovs == [] else Spans(iovs, total)
    {
      total := if len > GetReadSize() then GetReadSize() else len;
      iovs := [];
      CurrentBlock();
      if total > 0 {
        iovs := Windows(total);
      }
    }

    method GetWriteBuffers(len: nat) returns (iovs: seq<IoVec>)
      requires Valid()
      modifies this`capacity, this`cur, this`nodes, this`blocks, this`Repr, Repr - {this}
      ensures Valid() && fresh(Repr - old(Repr))
      ensures position + len <= capacity && Data() == old(Data())
      ensures if len == 0 then iovs == [] else Spans(iovs, len)
    {
      iovs := [];
      if len > 0 {
        AddCapacity(len);
        iovs := Windows(len);
      }
    }

    /** Window `i` is the one where the spanned bytes go on at the offset `at`. */
    ghost predicate Next(iovs: seq<IoVec>, i: nat, at: nat)
      reads this`position, this`index
    {
      i < |iovs| && at == Max(position, Off(baseSize, index + i))
    }

    /** How much of window `i` a transfer of `n` bytes uses after `done` of them. */
    function Share(v: IoVec, n: nat, done: nat): nat
      requires done <= n
    {
      if v.len <= n - done then v.len else n - done
    }

    /** Window after window, the spanned bytes follow each other without a gap. */
    lemma NextWindow(iovs: seq<IoVec>, i: nat, total: nat, n: nat, done: nat)
      requires Spans(iovs, total) && done < n <= total && Next(iovs, i, position + done)
      ensures index + i < |nodes| && iovs[i].base == nodes[index + i].ptr
      ensures position + done == Off(baseSize, index + i) + iovs[i].off
      ensures 0 < Share(iovs[i], n, done) && iovs[i].off + Share(iovs[i], n, done) <= baseSize
      ensures done + Share(iovs[i], n, done) < n ==> Next(iovs, i + 1, position + (done + Share(iovs[i], n, done)))
    {
      assert Off(baseSize, index + (i + 1)) == Off(baseSize, index + i) + baseSize;
    }

    /** Taking the first `m` bytes of one window after the bytes `out` from `start`. */
    method Take(v: IoVec, ghost k: nat, m: nat, out: seq<byte>, ghost start: nat, ghost at: nat)
        returns (out': seq<byte>)
      requires Holds() && k < |nodes| && v.base == nodes[k].ptr && v.off + m <= baseSize
      requires at == Off(baseSize, k) + v.off && IsSlice(out, Memory(), start, at)
      ensures IsSlice(out', Memory(), start, at + m)
    {
      FlattenWindow(blocks, baseSize, k, v.off, v.off + m);
      IsSliceMore(out, Memory(), start, at, at + m);
      var piece := v.base[v.off..v.off + m];
      assert piece == blocks[k][v.off..v.off + m];
      out' := out + piece;
    }

    /** What a gathering send of `n` bytes takes from the windows: they are read in order. */
    method Gather(iovs: seq<IoVec>, n: nat, ghost total: nat) returns (out: seq<byte>)
      requires Holds() && Spans(iovs, total) && n <= total && position + total <= capacity == |Memory()|
      ensures IsSlice(out, Memory(), position, position + n)
    {
      out := [];
      var i: nat := 0;
      var done: nat := 0;
      while done < n
        invariant done <= n && IsSlice(out, Memory(), position, position + done)
        invariant done < n ==> Next(iovs, i, position + done)
        decreases n - done
      {
        NextWindow(iovs, i, total, n, done);
        var m := Share(iovs[i], n, done);
        out := Take(iovs[i], index + i, m, out, position, position + done);
        done := done + m;
        i := i + 1;
      }
    }

    /** Filling the first `m` bytes of one window. */
    method Fill(v: IoVec, ghost k: nat, data: seq<byte>, done: nat, m: nat, ghost mem: seq<byte>)
      requires Holds() && k < |nodes| && v.base == nodes[k].ptr && v.off + m <= baseSize
      requires done + m <= |data| && position + done == Off(baseSize, k) + v.off
      requires Wrote(Memory(), mem, position, data, done)
      modifies this`blocks, Repr - {this}
      ensures Holds() && Wrote(Memory(), mem, position, data, done + m)
    {
      CopyIn(v.base, k, v.off, data[done..done + m]);
      WroteMore(old(Memory()), mem, position, data, done, m);
    }

    /** What a scattering receive of `data` does to the windows: they are filled in order. */
    method Scatter(iovs: seq<IoVec>, data: seq<byte>, ghost total: nat)
      requires Holds() && Spans(iovs, total) && |data| <= total
      modifies this`blocks, Repr - {this}
      ensures Holds() && Wrote(Memory(), old(Memory()), position, data, |data|)
    {
      ghost var mem := Memory();
      var done: nat := 0;
      var i: nat := 0;
      while done < |data|
        invariant Holds() && done <= |data|
        invariant Wrote(Memory(), mem, position, data, done)
        invariant done < |data| ==> Next(iovs, i, position + done)
        decreases |data| - done
      {
        NextWindow(iovs, i, total, |data|, done);
        var m := Share(iovs[i], |data|, done);
        Fill(iovs[i], index + i, data, done, m, mem);
        done := done + m;
        i := i + 1;
      }
    }
  }
}
