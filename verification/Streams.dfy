/**
 The socket stream over a `ByteArray`, and the loops that repeat partial transfers until a
 fixed number of bytes has moved. The kernel is a nondeterministic input: how many bytes it
 grants to each call, or the error it reports, is fixed by two arbitrary functions.
 */
module Streams {
  import opened Bytes
  import opened ByteArrays

  /** What a call for `max` bytes returns when `available` bytes are there and the kernel decides on `n`. */
  function Granted(n: int, max: nat, available: nat): (r: int)
    ensures r <= max && r <= available && (r > 0 <==> n > 0 && max > 0 && available > 0)
  {
    if n <= 0 then n else Min(n, Min(max, available))
  }

  class Socket {
    const recvGrant: nat -> int
    const sendGrant: nat -> int
    var recvCalls: nat
    var sendCalls: nat
    var incoming: seq<byte>
    var outgoing: seq<byte>
    var connected: bool

    constructor (recvGrant: nat -> int, sendGrant: nat -> int, incoming: seq<byte>)
      ensures this.recvGrant == recvGrant && this.sendGrant == sendGrant
      ensures this.incoming == incoming && outgoing == [] && connected
      ensures recvCalls == 0 && sendCalls == 0
    {
      this.recvGrant, this.sendGrant := recvGrant, sendGrant;
      this.incoming, outgoing, connected := incoming, [], true;
      recvCalls, sendCalls := 0, 0;
    }

    method Recv(max: nat) returns (rt: int, bytes: seq<byte>)
      modifies this`recvCalls, this`incoming
      ensures recvCalls == old(recvCalls) + 1
      ensures rt == Granted(recvGrant(old(recvCalls)), max, |old(incoming)|)
      ensures |bytes| == Max(0, if rt > 0 then rt else 0) && old(incoming) == bytes + incoming
    {
      rt := Granted(recvGrant(recvCalls), max, |incoming|);
      recvCalls := recvCalls + 1;
      bytes := [];
      if rt > 0 {
        bytes := incoming[..rt];
        incoming := incoming[rt..];
      }
    }

    method Send(data: seq<byte>) returns (rt: int)
      modifies this`sendCalls, this`outgoing
      ensures sendCalls == old(sendCalls) + 1
      ensures rt == Granted(sendGrant(old(sendCalls)), |data|, |data|)
      ensures outgoing == old(outgoing) + if rt > 0 then data[..rt] else []
    {
      rt := Granted(sendGrant(sendCalls), |data|, |data|);
      sendCalls := sendCalls + 1;
      if rt > 0 {
        outgoing := outgoing + data[..rt];
      }
    }
  }

  /** The kernel never fails this socket's calls. */
  ghost predicate Reliable(sock: Socket)
  {
    forall i: nat :: sock.recvGrant(i) > 0 && sock.sendGrant(i) > 0
  }

  // ---- Single transfers ------------------------------------------------------------------

  method ReadBuffer(sock: Socket, length: nat) returns (rt: int, bytes: seq<byte>)
    modifies sock`recvCalls, sock`incoming
    ensures !sock.connected ==> rt == -1 && sock.incoming == old(sock.incoming)
    ensures sock.connected ==> rt == Granted(sock.recvGrant(old(sock.recvCalls)), length, |old(sock.incoming)|)
    ensures |bytes| == (if rt > 0 then rt else 0) && old(sock.incoming) == bytes + sock.incoming
  {
    if !sock.connected { return -1, []; }
    rt, bytes := sock.Recv(length);
  }

  method WriteBuffer(sock: Socket, data: seq<byte>) returns (rt: int)
    modifies sock`sendCalls, sock`outgoing
    ensures !sock.connected ==> rt == -1
    ensures sock.connected ==> rt == Granted(sock.sendGrant(old(sock.sendCalls)), |data|, |data|)
    ensures rt <= |data| && sock.outgoing == old(sock.outgoing) + if rt > 0 then data[..rt] else []
  {
    if !sock.connected { return -1; }
    rt := sock.Send(data);
  }

  /** Receiving through the write windows and moving the position is `Write` of the received bytes. */
  method ReadIntoArray(sock: Socket, ba: ByteArray, length: nat) returns (rt: int, ghost got: seq<byte>)
    requires ba.Valid() && length > 0 && sock !in ba.Repr
    modifies sock`recvCalls, sock`incoming, ba.Repr
    ensures ba.Valid() && fresh(ba.Repr - old(ba.Repr))
    ensures old(sock.incoming) == got + sock.incoming && |got| == (if rt > 0 then rt else 0) && rt <= length
    ensures sock.connected && sock.recvGrant(old(sock.recvCalls)) > 0 && old(sock.incoming) != [] ==> rt > 0
    ensures ba.position == old(ba.position) + |got|
    ensures ba.Data() == Overwrite(old(ba.Data()), old(ba.position), got)
  {
    got := [];
    if !sock.connected { return -1, []; }
    var iovs := ba.GetWriteBuffers(length);
    var bytes;
    rt, bytes := sock.Recv(length);
    got := bytes;
    if rt > 0 {
      Deliver(ba, iovs, bytes, length);
    }
  }

  /** Bytes arriving in the windows, then the position moving past them. */
  method Deliver(ba: ByteArray, iovs: seq<IoVec>, bytes: seq<byte>, ghost length: nat)
    requires ba.Valid() && ba.Spans(iovs, length) && |bytes| <= length && ba.position + length <= ba.capacity
    modifies ba`position, ba`size, ba`cur, ba`index, ba`blocks, ba.Repr - {ba}
    ensures ba.Valid() && ba.position == old(ba.position) + |bytes|
    ensures ba.Data() == Overwrite(old(ba.Data()), old(ba.position), bytes)
  {
    ghost var mem := ba.Memory();
    FlattenLength(ba.blocks, ba.baseSize);
    ba.Scatter(iovs, bytes, length);
    WroteAll(ba.Memory(), mem, ba.position, bytes, ba.size);
    var ok := ba.SetPosition(ba.position + |bytes|);
  }

  /** What the read windows for `length` bytes hold. */
  method Readable(ba: ByteArray, length: nat) returns (out: seq<byte>)
    requires ba.Valid() && 0 < length && ba.position < ba.size
    ensures ba.position + |out| <= ba.size && out == ba.Data()[ba.position..ba.position + |out|]
    ensures |out| == Min(length, ba.GetReadSize())
  {
    var total, iovs := ba.GetReadBuffers(length);
    FlattenLength(ba.blocks, ba.baseSize);
    out := ba.Gather(iovs, total, total);
    SliceOfTake(ba.Memory(), ba.size, ba.position, ba.position + total);
  }

  /** Sending from the read windows and moving the position is `Read` of the sent bytes. */
  method WriteFromArray(sock: Socket, ba: ByteArray, length: nat) returns (rt: int)
    requires ba.Valid() && 0 < length && ba.position < ba.size && sock !in ba.Repr
    modifies sock`sendCalls, sock`outgoing, ba`position, ba`size, ba`cur, ba`index
    ensures ba.Valid() && ba.Data() == old(ba.Data())
    ensures rt <= Min(length, old(ba.GetReadSize()))
    ensures ba.position == old(ba.position) + (if rt > 0 then rt else 0)
    ensures sock.outgoing == old(sock.outgoing) + ba.Data()[old(ba.position)..ba.position]
    ensures sock.connected && sock.sendGrant(old(sock.sendCalls)) > 0 ==> rt > 0
  {
    if !sock.connected { return -1; }
    var out := Readable(ba, length);
    rt := sock.Send(out);
    if rt > 0 {
      var ok := ba.SetPosition(ba.position + rt);
    }
  }

  // ---- Fixed-size transfers --------------------------------------------------------------

  /** `length` bytes of the stream in order, or the failing call's result and the bytes moved so far. */
  method ReadFixSizeArray(sock: Socket, ba: ByteArray, length: nat) returns (rt: int, ghost got: seq<byte>)
    requires ba.Valid() && sock !in ba.Repr
    modifies sock`recvCalls, sock`incoming, ba.Repr
    ensures ba.Valid() && fresh(ba.Repr - old(ba.Repr))
    ensures old(sock.incoming) == got + sock.incoming
    ensures ba.position == old(ba.position) + |got|
    ensures ba.Data() == Overwrite(old(ba.Data()), old(ba.position), got)
    ensures if |got| == length then rt == length else rt <= 0 && |got| < length
    ensures sock.connected && Reliable(sock) && length <= |old(sock.incoming)| ==> rt == length
  {
    var left := length;
    got := [];
    while left > 0
      invariant 0 <= left <= length && |got| == length - left
      invariant ba.Valid() && fresh(ba.Repr - old(ba.Repr)) && sock !in ba.Repr
      invariant old(sock.incoming) == got + sock.incoming
      invariant ba.position == old(ba.position) + |got|
      invariant ba.Data() == Overwrite(old(ba.Data()), old(ba.position), got)
    {
      ghost var piece;
      ghost var data, before := ba.Data(), ba.position;
      rt, piece := ReadIntoArray(sock, ba, left);
      OverwriteMore(old(ba.Data()), old(ba.position), got, piece);
      got := got + piece;
      if rt <= 0 { return; }
      left := left - rt;
    }
    rt := length;
  }

  method WriteFixSizeArray(sock: Socket, ba: ByteArray, length: nat) returns (rt: int)
    requires ba.Valid() && sock !in ba.Repr && length <= ba.GetReadSize()
    modifies sock`sendCalls, sock`outgoing, ba`position, ba`size, ba`cur, ba`index
    ensures ba.Valid() && ba.Data() == old(ba.Data())
    ensures old(ba.position) <= ba.position <= old(ba.position) + length
    ensures sock.outgoing == old(sock.outgoing) + ba.Data()[old(ba.position)..ba.position]
    ensures if ba.position == old(ba.position) + length then rt == length else rt <= 0
    ensures sock.connected && Reliable(sock) ==> rt == length
  {
    var left := length;
    while left > 0
      invariant 0 <= left <= length && ba.position == old(ba.position) + (length - left)
      invariant ba.Valid() && ba.Data() == old(ba.Data()) && old(ba.position) + length <= ba.size
      invariant sock.outgoing == old(sock.outgoing) + ba.Data()[old(ba.position)..ba.position]
    {
      ghost var before := ba.position;
      rt := WriteFromArray(sock, ba, left);
      SliceMore(ba.Data(), old(ba.position), before, ba.position);
      if rt <= 0 { return; }
      left := left - rt;
    }
    rt := length;
  }

  /** The same loop into a caller's buffer. */
  method ReadFixSize(sock: Socket, length: nat) returns (rt: int, bytes: seq<byte>)
    modifies sock`recvCalls, sock`incoming
    ensures old(sock.incoming) == bytes + sock.incoming
    ensures if |bytes| == length then rt == length else rt <= 0 && |bytes| < length
    ensures sock.connected && Reliable(sock) && length <= |old(sock.incoming)| ==> rt == length
  {
    bytes := [];
    var left := length;
    while left > 0
      invariant 0 <= left <= length && |bytes| == length - left
      invariant old(sock.incoming) == bytes + sock.incoming
    {
      var piece;
      rt, piece := ReadBuffer(sock, left);
      bytes := bytes + piece;
      if rt <= 0 { return; }
      left := left - rt;
    }
    rt := length;
  }

  method WriteFixSize(sock: Socket, data: seq<byte>) returns (rt: int)
    modifies sock`sendCalls, sock`outgoing
    ensures old(sock.outgoing) <= sock.outgoing <= old(sock.outgoing) + data
    ensures if sock.outgoing == old(sock.outgoing) + data then rt == |data| else rt <= 0
    ensures sock.connected && Reliable(sock) ==> rt == |data|
  {
    var offset := 0;
    var left := |data|;
    while left > 0
      invariant 0 <= left && offset == |data| - left
      invariant sock.outgoing == old(sock.outgoing) + data[..offset]
    {
      rt := WriteBuffer(sock, data[offset..]);
      if rt <= 0 { return; }
      assert data[..offset] + data[offset..][..rt] == data[..offset + rt];
      offset := offset + rt;
      left := left - rt;
    }
    rt := |data|;
  }
}
