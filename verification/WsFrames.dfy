/** WebSocket frames: their bytes, and what a receiver makes of a byte stream. */
module WsFrames {
  import opened Bytes

  const CONTINUE := 0
  const TEXT := 1
  const BINARY := 2
  const CLOSE := 8
  const PING := 9
  const PONG := 10

  // ---- Masking ---------------------------------------------------------------------------

  /** Exclusive or of two bits. */
  function XorBit(a: nat, b: nat): (r: nat)
    ensures r < 2
  {
    if a == b then 0 else 1
  }

  /** Exclusive or of the low `k` bits. */
  function XorBits(a: nat, b: nat, k: nat): (r: nat) {
    if k == 0 then 0 else 2 * XorBits(a / 2, b / 2, k - 1) + XorBit(a % 2, b % 2)
  }

  lemma {:induction false} XorBitsInverts(a: nat, b: nat, k: nat)
    requires a < Pow2(k)
    ensures XorBits(a, b, k) < Pow2(k) && XorBits(XorBits(a, b, k), b, k) == a
  {
    if k > 0 {
      var q, bit := XorBits(a / 2, b / 2, k - 1), XorBit(a % 2, b % 2);
      XorBitsInverts(a / 2, b / 2, k - 1);
      assert (2 * q + bit) / 2 == q && (2 * q + bit) % 2 == bit;
      assert XorBit(bit, b % 2) == a % 2;
    }
  }

  lemma {:induction false} XorBitsBound(a: nat, b: nat, k: nat)
    ensures XorBits(a, b, k) < Pow2(k)
  {
    if k > 0 { XorBitsBound(a / 2, b / 2, k - 1); }
  }

  lemma Pow2Eight()
    ensures Pow2(8) == 256
  {
    assert Pow2(4) == 16;
  }

  function Xor(a: byte, b: byte): byte {
    Pow2Eight();
    XorBitsBound(a, b, 8);
    XorBits(a, b, 8)
  }

  lemma XorInverts(a: byte, b: byte)
    ensures Xor(Xor(a, b), b) == a
  {
    Pow2Eight();
    XorBitsInverts(a, b, 8);
  }

  /** The mask key repeated over the data. */
  function Masked(data: seq<byte>, mask: seq<byte>): (r: seq<byte>)
    requires |mask| == 4
    ensures |r| == |data| && forall i :: 0 <= i < |data| ==> r[i] == Xor(data[i], mask[i % 4])
  {
    seq(|data|, i requires 0 <= i < |data| => Xor(data[i], mask[i % 4]))
  }

  lemma MaskedTwice(data: seq<byte>, mask: seq<byte>)
    requires |mask| == 4
    ensures Masked(Masked(data, mask), mask) == data
  {
    forall i | 0 <= i < |data|
      ensures Masked(Masked(data, mask), mask)[i] == data[i]
    {
      XorInverts(data[i], mask[i % 4]);
    }
  }

  // ---- Frames ----------------------------------------------------------------------------

  /** The two bytes of the frame head: fin and opcode, mask and payload. */
  function HeadBytes(fin: bool, opcode: nat, masked: bool, payload: nat): (r: seq<byte>)
    requires opcode < 16 && payload < 128
    ensures |r| == 2 && (r[0] >= 128 <==> fin) && r[0] % 16 == opcode && (r[1] >= 128 <==> masked)
            && r[1] % 128 == payload
  {
    [(if fin then 128 else 0) + opcode, (if masked then 128 else 0) + payload]
  }

  function PayloadField(size: nat): (p: nat)
    ensures p < 128
  {
    if size < 126 then size else if size < 65536 then 126 else 127
  }

  /** The extended length, most significant byte first. */
  function LengthBytes(size: nat): seq<byte>
    requires size < 65536
  {
    if size < 126 then [] else [size / 256, size % 256]
  }

  /** A data frame as `WSSendMessage` writes it; an empty key means unmasked. */
  function DataFrame(fin: bool, opcode: nat, data: seq<byte>, mask: Option<seq<byte>>): seq<byte>
    requires opcode < 16 && |data| < 65536 && (mask.Some? ==> |mask.value| == 4)
  {
    HeadBytes(fin, opcode, mask.Some?, PayloadField(|data|)) + (LengthBytes(|data|) + BodyBytes(data, mask))
  }

  function BodyBytes(data: seq<byte>, mask: Option<seq<byte>>): seq<byte>
    requires mask.Some? ==> |mask.value| == 4
  {
    if mask.None? then data else mask.value + Masked(data, mask.value)
  }

  function ControlFrame(opcode: nat): seq<byte>
    requires opcode < 16
  {
    HeadBytes(true, opcode, false, 0)
  }

  // ---- Receiving -------------------------------------------------------------------------

  /** A number read most significant byte first. */
  function BigEndian(s: seq<byte>, lo: nat, hi: nat): nat
    requires lo <= hi <= |s|
    decreases hi - lo
  {
    if lo == hi then 0 else BigEndian(s, lo, hi - 1) * 256 + s[hi - 1]
  }

  /** How many bytes of extended length follow the head. */
  function ExtraLength(payload: nat): nat { if payload == 126 then 2 else if payload == 127 then 8 else 0 }

  /** The length of a frame whose head says `payload`, with the extended length at `at`. */
  function FrameLength(s: seq<byte>, at: nat, payload: nat): nat
    requires at + ExtraLength(payload) <= |s|
  {
    if ExtraLength(payload) == 0 then payload else BigEndian(s, at, at + ExtraLength(payload))
  }

  /** The payload of a frame of `length` bytes from `at` on, unmasked. */
  function Payload(s: seq<byte>, at: nat, masked: bool, length: nat): seq<byte>
    requires at + (if masked then 4 else 0) + length <= |s|
  {
    if masked then Masked(s[at + 4..at + 4 + length], s[at..at + 4]) else s[at..at + length]
  }

  datatype Received = Message(opcode: nat, data: seq<byte>, end: nat, pongs: nat) | Closed

  /** What the loop has gathered so far: the opcode, the data, and the number of PINGs answered. */
  datatype Progress = Progress(opcode: nat, data: seq<byte>, pongs: nat)

  function IsData(opcode: nat): bool { opcode == CONTINUE || opcode == TEXT || opcode == BINARY }

  /** A data frame whose head is at `at`: its payload and where it ends, unless it is refused or cut short. */
  function DataAt(s: seq<byte>, at: nat, have: nat, client: bool, max: nat): (r: Option<(seq<byte>, nat)>)
    requires at + 2 <= |s|
    ensures r.Some? ==> at + 2 < r.value.1 <= |s|
  {
    var masked, payload := s[at + 1] >= 128, s[at + 1] % 128;
    if !client && !masked then None else
    var body := at + 2 + ExtraLength(payload);
    if body > |s| then None else
    var length := FrameLength(s, at + 2, payload);
    if have + length >= max then None else
    var end := body + (if masked then 4 else 0) + length;
    if end > |s| || length == 0 then None else Some((Payload(s, body, masked, length), end))
  }

  function Joined(p: Progress, opcode: nat, data: seq<byte>): Progress {
    Progress(if p.opcode == 0 && opcode != CONTINUE then opcode else p.opcode, p.data + data, p.pongs)
  }

  /** The receiving loop over the bytes of the stream, as long as they last. */
  function ReceiveFrom(s: seq<byte>, at: nat, p: Progress, client: bool, max: nat): Received
    requires at <= |s|
    decreases |s| - at
  {
    if at + 2 > |s| then Closed else
    var opcode := s[at] % 16;
    if opcode == PING then ReceiveFrom(s, at + 2, p.(pongs := p.pongs + 1), client, max)
    else if IsData(opcode) then
      var d := DataAt(s, at, |p.data|, client, max);
      if d.None? then Closed else
      var p' := Joined(p, opcode, d.value.0);
      if s[at] >= 128 then Message(p'.opcode, p'.data, d.value.1, p'.pongs)
      else ReceiveFrom(s, d.value.1, p', client, max)
    else if opcode == CLOSE then Closed
    else ReceiveFrom(s, at + 2, p, client, max)
  }

  // ---- Round trip ------------------------------------------------------------------------

  datatype Item = PingItem | PongItem | Fragment(opcode: nat, data: seq<byte>, mask: Option<seq<byte>>)

  /** What a sender may send: non-empty fragments below 64K with a data opcode, masked towards a server. */
  predicate Sendable(item: Item, toServer: bool) {
    item.Fragment? ==>
      IsData(item.opcode) && 1 <= |item.data| < 65536 && (item.mask.Some? <==> toServer)
          && (item.mask.Some? ==> |item.mask.value| == 4)
  }

  function ItemBytes(item: Item, fin: bool, toServer: bool): (r: seq<byte>)
    requires Sendable(item, toServer)
  {
    match item
    case PingItem => ControlFrame(PING)
    case PongItem => ControlFrame(PONG)
    case Fragment(opcode, data, mask) => DataFrame(fin, opcode, data, mask)
  }

  /** The bytes of the items from number `i` on; only the last one has its fin bit set. */
  function StreamFrom(items: seq<Item>, i: nat, toServer: bool): seq<byte>
    requires i <= |items| && forall j :: 0 <= j < |items| ==> Sendable(items[j], toServer)
    decreases |items| - i
  {
    if i == |items| then [] else ItemBytes(items[i], i + 1 == |items|, toServer) + StreamFrom(items, i + 1, toServer)
  }

  function Step(p: Progress, item: Item): Progress {
    match item
    case PingItem => p.(pongs := p.pongs + 1)
    case PongItem => p
    case Fragment(opcode, data, _) => Joined(p, opcode, data)
  }

  function Gather(p: Progress, items: seq<Item>, i: nat): Progress
    requires i <= |items|
    decreases |items| - i
  {
    if i == |items| then p else Gather(Step(p, items[i]), items, i + 1)
  }

  /** The length field at `at` is read back. */
  lemma LengthInverts(s: seq<byte>, at: nat, size: nat)
    requires size < 65536 && Occurs(s, at, LengthBytes(size))
    ensures at + ExtraLength(PayloadField(size)) <= |s| && |LengthBytes(size)| == ExtraLength(PayloadField(size))
    ensures FrameLength(s, at, PayloadField(size)) == size
  {
    if size >= 126 {
      var l := LengthBytes(size);
      assert s[at] == l[0] && s[at + 1] == l[1];
      assert BigEndian(s, at, at) == 0 && BigEndian(s, at, at + 1) == s[at];
    }
  }

  lemma PayloadInverts(s: seq<byte>, at: nat, data: seq<byte>, mask: Option<seq<byte>>)
    requires (mask.Some? ==> |mask.value| == 4) && Occurs(s, at, BodyBytes(data, mask))
    ensures |BodyBytes(data, mask)| == (if mask.Some? then 4 else 0) + |data|
    ensures Payload(s, at, mask.Some?, |data|) == data
  {
    if mask.None? {
      OccursIsSlice(s, at, data);
    } else {
      OccursSplit(s, at, mask.value, Masked(data, mask.value));
      OccursIsSlice(s, at, mask.value);
      OccursIsSlice(s, at + 4, Masked(data, mask.value));
      MaskedTwice(data, mask.value);
    }
  }

  /** A frame head and what follows it, all as the receiver expects. */
  lemma DataAtIs(s: seq<byte>, at: nat, have: nat, client: bool, max: nat, masked: bool, payload: nat, body: nat,
      length: nat)
    requires at + 2 <= |s| && (s[at + 1] >= 128 <==> masked) && s[at + 1] % 128 == payload && (client || masked)
    requires body == at + 2 + ExtraLength(payload) <= |s| && FrameLength(s, at + 2, payload) == length
    requires 0 < length && have + length < max && body + (if masked then 4 else 0) + length <= |s|
    ensures DataAt(s, at, have, client, max) == Some((Payload(s, body, masked, length),
            body + (if masked then 4 else 0) + length))
  {
  }

  /** Where the parts of a frame lie. */
  lemma FrameParts(s: seq<byte>, at: nat, head: seq<byte>, length: seq<byte>, body: seq<byte>)
    requires |head| == 2 && Occurs(s, at, head + (length + body))
    ensures |head + (length + body)| == 2 + |length| + |body|
    ensures at + 2 <= |s| && s[at] == head[0] && s[at + 1] == head[1]
    ensures Occurs(s, at + 2, length) && Occurs(s, at + 2 + |length|, body)
  {
    OccursSplit(s, at, head, length + body);
    OccursSplit(s, at + 2, length, body);
    assert s[at + 0] == head[0] && s[at + 1] == head[1];
  }

  lemma FrameReads(s: seq<byte>, at: nat, data: seq<byte>, mask: Option<seq<byte>>, have: nat, client: bool, max: nat,
                   length: seq<byte>, body: seq<byte>)
    requires 1 <= |data| < 65536 && (mask.Some? ==> |mask.value| == 4) && (client || mask.Some?) && have + |data| < max
    requires length == LengthBytes(|data|) && body == BodyBytes(data, mask)
    requires at + 2 <= |s| && (s[at + 1] >= 128 <==> mask.Some?) && s[at + 1] % 128 == PayloadField(|data|)
    requires Occurs(s, at + 2, length) && Occurs(s, at + 2 + |length|, body)
    ensures DataAt(s, at, have, client, max) == Some((data, at + 2 + |length| + |body|))
  {
    LengthInverts(s, at + 2, |data|);
    PayloadInverts(s, at + 2 + |length|, data, mask);
    DataAtIs(s, at, have, client, max, mask.Some?, PayloadField(|data|), at + 2 + |length|, |data|);
  }

  /** A sent data frame is received as it was sent. */
  lemma FrameInverts(s: seq<byte>, at: nat, fin: bool, opcode: nat, data: seq<byte>, mask: Option<seq<byte>>,
      have: nat, client: bool, max: nat,
                     head: seq<byte>, length: seq<byte>, body: seq<byte>)
    requires opcode < 16 && 1 <= |data| < 65536 && (mask.Some? ==> |mask.value| == 4) && (client || mask.Some?)
             && have + |data| < max
    requires head == HeadBytes(fin, opcode, mask.Some?, PayloadField(|data|)) && length == LengthBytes(|data|)
             && body == BodyBytes(data, mask)
    requires Occurs(s, at, head + (length + body))
    ensures at + 2 <= |s| && s[at] % 16 == opcode && (s[at] >= 128 <==> fin)
    ensures DataAt(s, at, have, client, max) == Some((data, at + |head + (length + body)|))
  {
    FrameParts(s, at, head, length, body);
    FrameReads(s, at, data, mask, have, client, max, length, body);
  }

  /** The data of all items from number `i` on. */
  function Total(items: seq<Item>, i: nat): nat
    requires i <= |items|
    decreases |items| - i
  {
    if i == |items| then 0 else (if items[i].Fragment? then |items[i].data| else 0) + Total(items, i + 1)
  }

  /** What is received when `fin` ends the message, or else from `end` on. */
  function Onward(s: seq<byte>, end: nat, p: Progress, fin: bool, client: bool, max: nat): Received
    requires end <= |s|
  {
    if fin then Message(p.opcode, p.data, end, p.pongs) else ReceiveFrom(s, end, p, client, max)
  }

  lemma DataReceived(s: seq<byte>, at: nat, p: Progress, opcode: nat, data: seq<byte>, fin: bool, client: bool,
      max: nat, end: nat)
    requires at + 2 <= |s| && s[at] % 16 == opcode && (s[at] >= 128 <==> fin) && IsData(opcode)
    requires end <= |s| && DataAt(s, at, |p.data|, client, max) == Some((data, end))
    ensures ReceiveFrom(s, at, p, client, max) == Onward(s, end, Joined(p, opcode, data), fin, client, max)
  {
  }

  lemma FragmentReceived(s: seq<byte>, at: nat, p: Progress, item: Item, fin: bool, client: bool, max: nat, end: nat)
    requires item.Fragment? && Sendable(item, item.mask.Some?) && (client || item.mask.Some?)
             && |p.data| + |item.data| < max
    requires Occurs(s, at, DataFrame(fin, item.opcode, item.data, item.mask))
             && end == at + |DataFrame(fin, item.opcode, item.data, item.mask)|
    ensures end <= |s|
    ensures ReceiveFrom(s, at, p, client, max) == Onward(s, end, Joined(p, item.opcode, item.data), fin, client, max)
  {
    var size := |item.data|;
    FrameInverts(s, at, fin, item.opcode, item.data, item.mask, |p.data|, client, max,
                 HeadBytes(fin, item.opcode, item.mask.Some?, PayloadField(size)),
                 LengthBytes(size), BodyBytes(item.data, item.mask));
    DataReceived(s, at, p, item.opcode, item.data, fin, client, max, end);
  }

  lemma ControlReceived(s: seq<byte>, at: nat, p: Progress, opcode: nat, client: bool, max: nat)
    requires (opcode == PING || opcode == PONG) && Occurs(s, at, ControlFrame(opcode))
    ensures at + 2 <= |s|
    ensures ReceiveFrom(s, at, p, client, max) ==
              ReceiveFrom(s, at + 2, if opcode == PING then p.(pongs := p.pongs + 1) else p, client, max)
  {
    assert s[at] == ControlFrame(opcode)[0];
  }

  lemma ItemReceived(s: seq<byte>, at: nat, p: Progress, item: Item, fin: bool, toServer: bool, client: bool,
      max: nat, end: nat)
    requires Sendable(item, toServer) && (client || toServer) && (fin ==> item.Fragment?)
    requires Occurs(s, at, ItemBytes(item, fin, toServer)) && end == at + |ItemBytes(item, fin, toServer)|
    requires item.Fragment? ==> |p.data| + |item.data| < max
    ensures end <= |s| && ReceiveFrom(s, at, p, client, max) == Onward(s, end, Step(p, item), fin, client, max)
  {
    match item
    case PingItem => ControlReceived(s, at, p, PING, client, max);
    case PongItem => ControlReceived(s, at, p, PONG, client, max);
    case Fragment(_, _, _) => FragmentReceived(s, at, p, item, fin, client, max, end);
  }

  /** The state of a reception: where it is, what it has, and what is still to come. */
  ghost predicate Ahead(s: seq<byte>, at: nat, p: Progress, items: seq<Item>, i: nat, toServer: bool, max: nat,
      end: nat) {
    && i <= |items| && (forall j :: 0 <= j < |items| ==> Sendable(items[j], toServer))
    && |p.data| + Total(items, i) < max
    && Occurs(s, at, StreamFrom(items, i, toServer)) && end == at + |StreamFrom(items, i, toServer)|
  }

  /** Where the item at `i` ends and the rest starts. */
  lemma StreamSplits(s: seq<byte>, at: nat, items: seq<Item>, i: nat, toServer: bool, end: nat) returns (at': nat)
    requires i < |items| && forall j :: 0 <= j < |items| ==> Sendable(items[j], toServer)
    requires Occurs(s, at, StreamFrom(items, i, toServer)) && end == at + |StreamFrom(items, i, toServer)|
    ensures Occurs(s, at, ItemBytes(items[i], i + 1 == |items|, toServer))
            && at' == at + |ItemBytes(items[i], i + 1 == |items|, toServer)|
    ensures Occurs(s, at', StreamFrom(items, i + 1, toServer)) && end == at' + |StreamFrom(items, i + 1, toServer)|
  {
    var bytes, rest := ItemBytes(items[i], i + 1 == |items|, toServer), StreamFrom(items, i + 1, toServer);
    at' := at + |bytes|;
    SplitWhole(s, at, StreamFrom(items, i, toServer), bytes, rest);
  }

  lemma OneReceived(s: seq<byte>, at: nat, p: Progress, items: seq<Item>, i: nat, toServer: bool, client: bool,
      max: nat, end: nat) returns (at': nat)
    requires Ahead(s, at, p, items, i, toServer, max, end) && i < |items| && items[|items| - 1].Fragment?
             && (client || toServer)
    ensures at' <= |s| && Ahead(s, at', Step(p, items[i]), items, i + 1, toServer, max, end)
    ensures ReceiveFrom(s, at, p, client, max) == Onward(s, at', Step(p, items[i]), i + 1 == |items|, client, max)
  {
    at' := StreamSplits(s, at, items, i, toServer, end);
    ItemReceived(s, at, p, items[i], i + 1 == |items|, toServer, client, max, at');
  }

  /** Fragments and control frames in any mixture, the last one a fragment, are put together again. */
  lemma {:induction false} StreamReceived(s: seq<byte>, at: nat, p: Progress, items: seq<Item>, i: nat,
      toServer: bool, client: bool, max: nat, end: nat)
    requires Ahead(s, at, p, items, i, toServer, max, end) && i < |items| && items[|items| - 1].Fragment?
             && (client || toServer)
    ensures var g := Gather(p, items, i); ReceiveFrom(s, at, p, client, max) == Message(g.opcode, g.data, end, g.pongs)
    decreases |items| - i
  {
    var at' := OneReceived(s, at, p, items, i, toServer, client, max, end);
    if i + 1 < |items| {
      StreamReceived(s, at', Step(p, items[i]), items, i + 1, toServer, client, max, end);
    }
  }

  function Concat(items: seq<Item>, i: nat): seq<byte>
    requires i <= |items|
    decreases |items| - i
  {
    if i == |items| then [] else (if items[i].Fragment? then items[i].data else []) + Concat(items, i + 1)
  }

  function Pings(items: seq<Item>, i: nat): nat
    requires i <= |items|
    decreases |items| - i
  {
    if i == |items| then 0 else (if items[i].PingItem? then 1 else 0) + Pings(items, i + 1)
  }

  /** The first opcode that is not CONTINUE; zero if there is none. */
  function FirstOpcode(items: seq<Item>, i: nat): nat
    requires i <= |items|
    decreases |items| - i
  {
    if i == |items| then 0 else if items[i].Fragment? && items[i].opcode != CONTINUE then items[i].opcode
        else FirstOpcode(items, i + 1)
  }

  lemma {:induction false} GatherIs(p: Progress, items: seq<Item>, i: nat)
    requires i <= |items|
    ensures var g := Gather(p, items, i);
            && g.data == p.data + Concat(items, i)
            && g.pongs == p.pongs + Pings(items, i)
            && g.opcode == if p.opcode != 0 then p.opcode else FirstOpcode(items, i)
    decreases |items| - i
  {
    if i < |items| {
      GatherIs(Step(p, items[i]), items, i + 1);
    }
  }

  /** The whole message: every fragment in order, the first real opcode, and a PONG for every PING. */
  lemma MessageReceived(s: seq<byte>, items: seq<Item>, toServer: bool, client: bool, max: nat)
    requires items != [] && items[|items| - 1].Fragment? && (client || toServer)
    requires forall j :: 0 <= j < |items| ==> Sendable(items[j], toServer)
    requires Total(items, 0) < max && Occurs(s, 0, StreamFrom(items, 0, toServer))
    ensures ReceiveFrom(s, 0, Progress(0, [], 0), client, max) ==
            Message(FirstOpcode(items, 0), Concat(items, 0), |StreamFrom(items, 0, toServer)|, Pings(items, 0))
  {
    var p := Progress(0, [], 0);
    StreamReceived(s, 0, p, items, 0, toServer, client, max, |StreamFrom(items, 0, toServer)|);
    GatherIs(p, items, 0);
  }
}
