/** Sending and receiving WebSocket messages over a stream. */
module WebSocket {
  import opened Bytes
  import opened Streams
  import opened WsFrames

  /** A message; sending it masked changes its data. */
  class FrameMessage {
    var opcode: nat
    var data: seq<byte>

    constructor (opcode: nat, data: seq<byte>)
      ensures this.opcode == opcode && this.data == data
    {
      this.opcode, this.data := opcode, data;
    }
  }

  lemma Regroup(a: seq<byte>, b: seq<byte>, c: seq<byte>)
    ensures (a + b) + c == a + (b + c)
  {
  }

  method Close(sock: Socket)
    modifies sock`connected
    ensures !sock.connected
  {
    sock.connected := false;
  }

  /** The masking loop over a message's data. */
  method MaskData(data: seq<byte>, mask: seq<byte>) returns (r: seq<byte>)
    requires |mask| == 4
    ensures r == Masked(data, mask)
  {
    r := data;
    for i := 0 to |data|
      invariant |r| == |data|
      invariant forall j :: 0 <= j < i ==> r[j] == Xor(data[j], mask[j % 4])
      invariant forall j :: i <= j < |data| ==> r[j] == data[j]
    {
      r := r[i := Xor(r[i], mask[i % 4])];
    }
  }

  /** `writeFixSize` of a non-empty buffer, as the senders test it. */
  method Put(sock: Socket, bytes: seq<byte>) returns (ok: bool)
    modifies sock`sendCalls, sock`outgoing
    ensures ok ==> bytes != [] && sock.outgoing == old(sock.outgoing) + bytes
    ensures sock.connected && Reliable(sock) && bytes != [] ==> ok
  {
    var rt := WriteFixSize(sock, bytes);
    ok := rt > 0;
  }

  /** The parts of a frame after its head. */
  method PutBody(sock: Socket, msg: FrameMessage, mask: Option<seq<byte>>) returns (ok: bool)
    requires (mask.Some? ==> |mask.value| == 4) && |msg.data| < 65536
    modifies sock`sendCalls, sock`outgoing, msg`data
    ensures ok ==> old(msg.data) != [] && sock.outgoing == old(sock.outgoing) + BodyBytes(old(msg.data), mask)
    ensures sock.connected && Reliable(sock) && old(msg.data) != [] ==> ok
    ensures msg.data == if mask.Some? then Masked(old(msg.data), mask.value) else old(msg.data)
  {
    if mask.Some? {
      msg.data := MaskData(msg.data, mask.value);
      ok := Put(sock, mask.value);
      if !ok { return; }
    }
    ok := Put(sock, msg.data);
  }

  /**
   One data frame. `mask` is the random key a client draws. An empty message fails after its
   head was written; otherwise only the stream can fail.
   */
  method WSSendMessage(sock: Socket, msg: FrameMessage, mask: Option<seq<byte>>, fin: bool) returns (rt: int)
    requires msg.opcode < 16 && |msg.data| < 65536 && (mask.Some? ==> |mask.value| == 4)
    modifies sock`sendCalls, sock`outgoing, sock`connected, msg`data
    ensures rt == -1 || rt == |old(msg.data)| + 2
    ensures rt != -1 ==>
              && sock.outgoing == old(sock.outgoing) + DataFrame(fin, msg.opcode, old(msg.data), mask)
              && sock.connected == old(sock.connected)
    ensures rt != -1 ==> msg.data == if mask.Some? then Masked(old(msg.data), mask.value) else old(msg.data)
    ensures rt == -1 ==> !sock.connected
    ensures old(sock.connected) && Reliable(sock) ==> (rt != -1 <==> old(msg.data) != [])
  {
    var size := |msg.data|;
    var payload := PayloadField(size);
    ghost var head := HeadBytes(fin, msg.opcode, mask.Some?, payload);
    Regroup(sock.outgoing, head, LengthBytes(size));
    Regroup(sock.outgoing + head, LengthBytes(size), BodyBytes(msg.data, mask));
    Regroup(sock.outgoing, head, LengthBytes(size) + BodyBytes(msg.data, mask));
    var ok := Put(sock, HeadBytes(fin, msg.opcode, mask.Some?, payload));
    if ok && payload == 126 {
      ok := Put(sock, LengthBytes(size));
    }
    if ok {
      ok := PutBody(sock, msg, mask);
    }
    if !ok {
      Close(sock);
      return -1;
    }
    rt := size + 2;
  }

  /** WSPing and WSPong. */
  method WSControl(sock: Socket, opcode: nat) returns (ok: bool)
    requires opcode < 16
    modifies sock`sendCalls, sock`outgoing, sock`connected
    ensures ok ==> sock.outgoing == old(sock.outgoing) + ControlFrame(opcode) && sock.connected == old(sock.connected)
    ensures !ok ==> !sock.connected
    ensures old(sock.connected) && Reliable(sock) ==> ok
  {
    ok := Put(sock, ControlFrame(opcode));
    if !ok { Close(sock); }
  }

  // ---- Receiving -------------------------------------------------------------------------

  /** The stream stands at the offset `at` of what it held. */
  ghost predicate At(sock: Socket, s: seq<byte>, at: nat)
    reads sock
  {
    at <= |s| && sock.incoming == s[at..]
  }

  /** `readFixSize`, as the receiver tests it. */
  method Get(sock: Socket, n: nat, ghost s: seq<byte>, ghost at: nat) returns (ok: bool, bytes: seq<byte>)
    requires At(sock, s, at)
    modifies sock`recvCalls, sock`incoming
    ensures ok ==> 0 < n && at + n <= |s| && bytes == s[at..at + n] && At(sock, s, at + n)
    ensures sock.connected && Reliable(sock) ==> (ok <==> 0 < n && at + n <= |s|)
  {
    var rt;
    rt, bytes := ReadFixSize(sock, n);
    ok := rt > 0;
    if ok {
      SuffixMoves(s, at, bytes, sock.incoming);
    }
  }

  lemma SuffixMoves(s: seq<byte>, at: nat, bytes: seq<byte>, rest: seq<byte>)
    requires at <= |s| && s[at..] == bytes + rest
    ensures at + |bytes| <= |s| && bytes == s[at..at + |bytes|] && rest == s[at + |bytes|..]
  {
    assert |s[at..]| == |bytes| + |rest|;
    assert forall i :: 0 <= i < |bytes| ==> bytes[i] == s[at..][i];
    assert forall i :: 0 <= i < |rest| ==> rest[i] == s[at..][|bytes| + i];
  }

  /** The length of a frame, from its head and the extended length after it. */
  method GetLength(sock: Socket, payload: nat, ghost s: seq<byte>, ghost at: nat) returns (ok: bool, length: nat)
    requires At(sock, s, at) && payload < 128
    modifies sock`recvCalls, sock`incoming
    ensures ok ==>
              && at + ExtraLength(payload) <= |s| && length == FrameLength(s, at, payload)
              && At(sock, s, at + ExtraLength(payload))
    ensures sock.connected && Reliable(sock) ==> (ok <==> at + ExtraLength(payload) <= |s|)
  {
    if payload < 126 { return true, payload; }
    var bytes;
    ok, bytes := Get(sock, ExtraLength(payload), s, at);
    length := 0;
    if ok {
      length := BigEndian(bytes, 0, |bytes|);
      BigEndianShift(s, at, |bytes|, bytes);
    }
  }

  lemma {:induction false} BigEndianShift(s: seq<byte>, at: nat, n: nat, bytes: seq<byte>)
    requires at + |bytes| <= |s| && n <= |bytes| && bytes == s[at..at + |bytes|]
    ensures BigEndian(bytes, 0, n) == BigEndian(s, at, at + n)
  {
    if n > 0 { BigEndianShift(s, at, n - 1, bytes); }
  }

  /** The mask key, if any, and the payload. */
  method GetPayload(sock: Socket, masked: bool, length: nat, ghost s: seq<byte>, ghost at: nat)
      returns (ok: bool, data: seq<byte>)
    requires At(sock, s, at)
    modifies sock`recvCalls, sock`incoming
    ensures var end := at + (if masked then 4 else 0) + length;
            && (ok ==> 0 < length && end <= |s| && data == Payload(s, at, masked, length) && At(sock, s, end))
            && (sock.connected && Reliable(sock) ==> (ok <==> 0 < length && end <= |s|))
  {
    var mask := [];
    ok, data := true, [];
    if masked {
      ok, mask := Get(sock, 4, s, at);
      if !ok { return; }
    }
    ok, data := Get(sock, length, s, at + |mask|);
    if ok && masked {
      data := MaskData(data, mask);
    }
  }

  /** A data frame after its head. */
  method GetData(sock: Socket, head: seq<byte>, have: nat, client: bool, max: nat, ghost s: seq<byte>, ghost at: nat)
      returns (ok: bool, data: seq<byte>)
    requires at + 2 <= |s| && head == s[at..at + 2] && At(sock, s, at + 2)
    modifies sock`recvCalls, sock`incoming
    ensures ok ==> DataAt(s, at, have, client, max).Some? && data == DataAt(s, at, have, client, max).value.0
                   && At(sock, s, DataAt(s, at, have, client, max).value.1)
    ensures sock.connected && Reliable(sock) ==> (ok <==> DataAt(s, at, have, client, max).Some?)
  {
    var masked, payload := head[1] >= 128, head[1] % 128;
    if !client && !masked { return false, []; }
    var length;
    ok, length := GetLength(sock, payload, s, at + 2);
    if !ok || have + length >= max { return false, []; }
    ok, data := GetPayload(sock, masked, length, s, at + 2 + ExtraLength(payload));
  }

  function Pongs(n: nat): seq<byte> { if n == 0 then [] else Pongs(n - 1) + ControlFrame(PONG) }

  /** How one round of the receiving loop ends: it goes on, it has the message, or it gives up. */
  datatype Turn = More(p: Progress) | Last(p: Progress) | Stop

  /** What a round means for the bytes it stood at. */
  ghost predicate TurnOk(s: seq<byte>, at: nat, p: Progress, client: bool, max: nat, t: Turn, at': nat) {
    && at + 2 <= at' <= |s| && !t.Stop?
    && ReceiveFrom(s, at, p, client, max) == Onward(s, at', t.p, t.Last?, client, max)
  }

  /** A round that starts with a data frame. */
  method RecvData(sock: Socket, head: seq<byte>, p: Progress, client: bool, max: nat, ghost s: seq<byte>, ghost at: nat)
      returns (t: Turn, ghost at': nat)
    requires at + 2 <= |s| && head == s[at..at + 2] && At(sock, s, at + 2) && IsData(head[0] % 16)
    modifies sock`recvCalls, sock`incoming
    ensures !t.Stop? ==> TurnOk(s, at, p, client, max, t, at') && At(sock, s, at') && t.p.pongs == p.pongs
    ensures sock.connected && Reliable(sock) && t.Stop? ==> ReceiveFrom(s, at, p, client, max) == Closed
  {
    at' := at;
    var ok, data := GetData(sock, head, |p.data|, client, max, s, at);
    if !ok { return Stop, at'; }
    at' := DataAt(s, at, |p.data|, client, max).value.1;
    var opcode := head[0] % 16;
    DataReceived(s, at, p, opcode, data, head[0] >= 128, client, max, at');
    var p' := Joined(p, opcode, data);
    t := if head[0] >= 128 then Last(p') else More(p');
  }

  /** One round of the receiving loop. */
  method RecvFrame(sock: Socket, p: Progress, client: bool, max: nat, ghost s: seq<byte>, ghost at: nat,
      ghost base: seq<byte>)
      returns (t: Turn, ghost at': nat)
    requires At(sock, s, at) && sock.outgoing == base + Pongs(p.pongs)
    modifies sock
    ensures !t.Stop? ==> TurnOk(s, at, p, client, max, t, at') && At(sock, s, at')
    ensures !t.Stop? ==> sock.outgoing == base + Pongs(t.p.pongs) && sock.connected == old(sock.connected)
    ensures old(sock.connected) && Reliable(sock) && t.Stop? ==> ReceiveFrom(s, at, p, client, max) == Closed
  {
    at' := at;
    var ok, head := Get(sock, 2, s, at);
    if !ok { return Stop, at'; }
    at' := at + 2;
    var opcode := head[0] % 16;
    if opcode == PING {
      ok := WSControl(sock, PONG);
      if !ok { return Stop, at'; }
      t := More(p.(pongs := p.pongs + 1));
    } else if IsData(opcode) {
      t, at' := RecvData(sock, head, p, client, max, s, at);
    } else if opcode == CLOSE {
      t := Stop;
    } else {
      t := More(p);
    }
  }

  /** A whole message: every frame up to one with its fin bit set, PINGs answered on the way. */
  method WSRecvMessage(sock: Socket, client: bool, max: nat) returns (r: Option<(nat, seq<byte>)>)
    modifies sock
    ensures var m := ReceiveFrom(old(sock.incoming), 0, Progress(0, [], 0), client, max);
            && (r.Some? ==>
                   && m.Message? && r.value == (m.opcode, m.data) && At(sock, old(sock.incoming), m.end)
                   && sock.outgoing == old(sock.outgoing) + Pongs(m.pongs))
            && (old(sock.connected) && Reliable(sock) ==> (r.Some? <==> m.Message?))
    ensures r.Some? ==> sock.connected == old(sock.connected)
    ensures r.None? ==> !sock.connected
  {
    ghost var s, base := sock.incoming, sock.outgoing;
    ghost var m := ReceiveFrom(s, 0, Progress(0, [], 0), client, max);
    ghost var at: nat := 0;
    var t := More(Progress(0, [], 0));
    while t.More?
      invariant old(sock.connected) && Reliable(sock) && t.Stop? ==> m == Closed
      invariant !t.Stop? ==>
                  && sock.connected == old(sock.connected) && sock.outgoing == base + Pongs(t.p.pongs)
                  && At(sock, s, at)
      invariant !t.Stop? ==> m == Onward(s, at, t.p, t.Last?, client, max)
      decreases t.More?, |s| - at
    {
      t, at := RecvFrame(sock, t.p, client, max, s, at, base);
    }
    if t.Last? { return Some((t.p.opcode, t.p.data)); }
    Close(sock);
    r := None;
  }

  // ---- Both ends -------------------------------------------------------------------------

  method SendItem(sock: Socket, item: Item, fin: bool, toServer: bool)
    requires sock.connected && Reliable(sock) && Sendable(item, toServer)
    modifies sock
    ensures sock.connected && sock.outgoing == old(sock.outgoing) + ItemBytes(item, fin, toServer)
  {
    match item {
      case PingItem => var _ := WSControl(sock, PING);
      case PongItem => var _ := WSControl(sock, PONG);
      case Fragment(opcode, data, mask) =>
        var msg := new FrameMessage(opcode, data);
        var _ := WSSendMessage(sock, msg, mask, fin);
    }
  }

  /** Sending the items one after the other, the fin bit on the last. */
  method SendAll(sock: Socket, items: seq<Item>, i: nat, toServer: bool)
    requires sock.connected && Reliable(sock)
    requires i <= |items| && forall j :: 0 <= j < |items| ==> Sendable(items[j], toServer)
    modifies sock
    ensures sock.outgoing == old(sock.outgoing) + StreamFrom(items, i, toServer)
    decreases |items| - i
  {
    if i < |items| {
      ghost var before, rest := sock.outgoing, StreamFrom(items, i + 1, toServer);
      ghost var bytes := ItemBytes(items[i], i + 1 == |items|, toServer);
      Regroup(before, bytes, rest);
      SendItem(sock, items[i], i + 1 == |items|, toServer);
      SendAll(sock, items, i + 1, toServer);
    }
  }

  /**
   A message sent in fragments with control frames in between, over streams that transfer any
   part of what they are asked for, arrives whole, and every PING is answered by one PONG.
   */
  method Exchange(items: seq<Item>, toServer: bool, max: nat, sendGrant: nat -> int, recvGrant: nat -> int)
      returns (r: Option<(nat, seq<byte>)>, answered: seq<byte>)
    requires items != [] && items[|items| - 1].Fragment? && Total(items, 0) < max
    requires forall j :: 0 <= j < |items| ==> Sendable(items[j], toServer)
    requires forall n: nat :: sendGrant(n) > 0 && recvGrant(n) > 0
    ensures r == Some((FirstOpcode(items, 0), Concat(items, 0))) && answered == Pongs(Pings(items, 0))
  {
    var sender := new Socket(recvGrant, sendGrant, []);
    SendAll(sender, items, 0, toServer);
    var receiver := new Socket(recvGrant, sendGrant, sender.outgoing);
    MessageReceived(receiver.incoming, items, toServer, !toServer, max);
    r := WSRecvMessage(receiver, !toServer, max);
    answered := receiver.outgoing;
  }
}
