/**
 Body framing of the incremental HTTP parser, one byte at a time: from the end of the headers to
 the end of the message, for requests and responses, identity and chunked bodies.
 */
module HttpBody {
  import opened Bytes

  const CR: byte := 13
  const LF: byte := 10
  const Unset := 0xFFFF_FFFF_FFFF_FFFF   // ULLONG_MAX: no Content-Length

  datatype Error =
    | HeaderOverflow | Strict | UnexpectedContentLength | CallbackHeadersComplete
    | InvalidChunkSize | InvalidContentLength | InvalidEofState

  datatype State =
    | HeaderFieldStart | HeadersAlmostDone
    | ChunkSizeStart | ChunkSize | ChunkParameters | ChunkSizeAlmostDone
    | ChunkData | ChunkDataAlmostDone | ChunkDataDone
    | BodyIdentity | BodyIdentityEof
    | NewMessage(dead: bool)   // the message is over
    | Trailer                  // a trailer field follows the last chunk
    | Failed(error: Error)

  /** What the parser is built and called with: strictness, header limit, result of on_headers_complete. */
  datatype Config = Config(strict: bool, maxHeader: nat, onHeadersComplete: int)

  /** What the start line and the headers said. */
  datatype Head = Head(
    request: bool, connect: bool, status: nat, persistent: bool,
    chunked: bool, lengthGiven: bool, upgradeAsked: bool)

  datatype Machine = Machine(state: State, nread: nat, length: nat, trailing: bool, skipBody: bool, upgrade: bool)

  datatype Event = Body(b: byte) | ChunkHeader(size: nat) | ChunkComplete | HeadersComplete | MessageComplete

  /** The result of one byte: the new machine, and what was reported. */
  datatype Stepped = Stepped(m: Machine, events: seq<Event>)

  predicate Stopped(s: State) { s.NewMessage? || s.Trailer? || s.Failed? }

  /** The byte that led to this state was not consumed. */
  predicate Refused(s: State) { s.Trailer? || s.Failed? }

  predicate ParsingHeader(s: State) {
    || s.HeaderFieldStart? || s.HeadersAlmostDone?
    || s.ChunkSizeStart? || s.ChunkSize? || s.ChunkParameters? || s.ChunkSizeAlmostDone?
  }

  /** The hex table has 128 entries in an array of 256: bytes above 127 read as the digit zero. */
  function Unhex(c: byte): (v: int)
    ensures -1 <= v < 16
  {
    if '0' as int <= c <= '9' as int then c - '0' as int
    else if 'A' as int <= c <= 'F' as int then c - 'A' as int + 10
    else if 'a' as int <= c <= 'f' as int then c - 'a' as int + 10
    else if c >= 128 then 0
    else -1
  }

  predicate NeedsEof(head: Head, m: Machine) {
    && !head.request
    && !(head.status / 100 == 1 || head.status == 204 || head.status == 304 || m.skipBody)
    && !(head.chunked || m.length != Unset)
  }

  predicate ShouldKeepAlive(head: Head, m: Machine) {
    head.persistent && !NeedsEof(head, m)
  }

  function NewMessageState(cfg: Config, head: Head, m: Machine): State {
    NewMessage(cfg.strict && !ShouldKeepAlive(head, m))
  }

  function Fail(m: Machine, e: Error): Stepped { Stepped(m.(state := Failed(e)), []) }

  function Go(m: Machine, s: State): Stepped { Stepped(m.(state := s), []) }

  /** The message ends on the current byte. */
  function Finish(cfg: Config, head: Head, m: Machine, before: seq<Event>): Stepped {
    Stepped(m.(state := NewMessageState(cfg, head, m)), before + [MessageComplete])
  }

  function HeadersDone(cfg: Config, head: Head, m: Machine, ch: byte): Stepped {
    if cfg.strict && ch != LF then Fail(m, Strict) else
    var m := m.(nread := 0);
    var hasBody := head.chunked || (m.length > 0 && m.length != Unset);
    if m.upgrade && (head.connect || m.skipBody || !hasBody) then Finish(cfg, head, m, [])
    else if m.skipBody then Finish(cfg, head, m, [])
    else if head.chunked then Go(m, ChunkSizeStart)
    else if m.length == 0 then Finish(cfg, head, m, [])
    else if m.length != Unset then Go(m, BodyIdentity)
    else if !NeedsEof(head, m) then Finish(cfg, head, m, [])
    else Go(m, BodyIdentityEof)
  }

  /** The switch on the result of on_headers_complete, and the re-execution after it. */
  function AfterHeaders(cfg: Config, head: Head, m: Machine, ch: byte): Stepped {
    var r := cfg.onHeadersComplete;
    if r != 0 && r != 1 && r != 2 then Fail(m, CallbackHeadersComplete)
    else HeadersDone(cfg, head, m.(upgrade := m.upgrade || r == 2, skipBody := m.skipBody || r != 0), ch)
  }

  /** The end of the message's headers: the upgrade flag, then on_headers_complete. */
  function HeadersOver(cfg: Config, head: Head, m: Machine, ch: byte): Stepped {
    var upgrade := if head.upgradeAsked then head.request || head.status == 101 else head.connect;
    var n := AfterHeaders(cfg, head, m.(upgrade := upgrade), ch);
    n.(events := [HeadersComplete] + n.events)
  }

  function EndOfHeaders(cfg: Config, head: Head, m: Machine, ch: byte): Stepped {
    if cfg.strict && ch != LF then Fail(m, Strict)
    else if m.trailing then Finish(cfg, head, m, [ChunkComplete])
    else if head.chunked && head.lengthGiven then Fail(m, UnexpectedContentLength)
    else HeadersOver(cfg, head, m, ch)
  }

  /** `(ULLONG_MAX - base) / base`, the conservative limit of both size accumulators. */
  function Limit(base: nat): nat
    requires base >= 1
  {
    if base <= Unset then (Unset - base) / base else 0
  }

  function ChunkSizeDigit(m: Machine, ch: byte): Stepped {
    if ch == CR then Go(m, ChunkSizeAlmostDone)
    else if Unhex(ch) == -1 then
      if ch == ';' as int || ch == ' ' as int then Go(m, ChunkParameters) else Fail(m, InvalidChunkSize)
    else if Limit(16) < m.length then Fail(m, InvalidContentLength)
    else Stepped(m.(length := (m.length * 16 + Unhex(ch)) % 0x1_0000_0000_0000_0000), [])
  }

  function EndOfChunkSize(cfg: Config, m: Machine, ch: byte): Stepped {
    if cfg.strict && ch != LF then Fail(m, Strict)
    else if m.length == 0 then Stepped(m.(nread := 0, trailing := true, state := HeaderFieldStart), [ChunkHeader(0)])
    else Stepped(m.(nread := 0, state := ChunkData), [ChunkHeader(m.length)])
  }

  function Act(cfg: Config, head: Head, m: Machine, ch: byte): Stepped
    requires !Stopped(m.state)
  {
    match m.state
    case HeaderFieldStart =>
      if ch == CR then Go(m, HeadersAlmostDone)
      else if ch == LF then EndOfHeaders(cfg, head, m.(state := HeadersAlmostDone), ch)
      else Stepped(m.(state := Trailer), [])
    case HeadersAlmostDone => EndOfHeaders(cfg, head, m, ch)
    case ChunkSizeStart =>
      if Unhex(ch) == -1 then Fail(m, InvalidChunkSize) else Go(m.(length := Unhex(ch)), ChunkSize)
    case ChunkSize => ChunkSizeDigit(m, ch)
    case ChunkParameters => Go(m, if ch == CR then ChunkSizeAlmostDone else ChunkParameters)
    case ChunkSizeAlmostDone => EndOfChunkSize(cfg, m, ch)
    case ChunkData =>
      if m.length <= 1 then Stepped(m.(length := 0, state := ChunkDataAlmostDone), [Body(ch)])
      else Stepped(m.(length := m.length - 1), [Body(ch)])
    case ChunkDataAlmostDone =>
      if cfg.strict && ch != CR then Fail(m, Strict) else Go(m, ChunkDataDone)
    case ChunkDataDone =>
      if cfg.strict && ch != LF then Fail(m, Strict)
      else Stepped(m.(nread := 0, state := ChunkSizeStart), [ChunkComplete])
    case BodyIdentity =>
      if m.length <= 1 then Finish(cfg, head, m.(length := 0), [Body(ch)])
      else Stepped(m.(length := m.length - 1), [Body(ch)])
    case BodyIdentityEof => Stepped(m, [Body(ch)])
  }

  /** COUNT_HEADER_SIZE(1) in the header states. */
  function Count(m: Machine): Machine {
    if ParsingHeader(m.state) then m.(nread := m.nread + 1) else m
  }

  /** The byte-at-a-time parser. */
  function Step(cfg: Config, head: Head, m: Machine, ch: byte): Stepped
    requires !Stopped(m.state)
  {
    Checked(cfg, head, Count(m), ch)
  }

  /** The header limit, then the byte. */
  function Checked(cfg: Config, head: Head, m: Machine, ch: byte): Stepped
    requires !Stopped(m.state)
  {
    if ParsingHeader(m.state) && m.nread > cfg.maxHeader then Fail(m, HeaderOverflow) else Act(cfg, head, m, ch)
  }

  /** The outcome of a run: the machine, everything reported, and where it ended. */
  datatype Outcome = Outcome(m: Machine, events: seq<Event>, end: nat)

  function After(events: seq<Event>, r: Outcome): Outcome { r.(events := events + r.events) }

  /** Stepping through `s` from `at` until its end or until the message is over, upgraded or refused. */
  function Run(cfg: Config, head: Head, m: Machine, s: seq<byte>, at: nat): (r: Outcome)
    requires at <= |s|
    ensures at <= r.end <= |s| && (r.end < |s| ==> Stopped(r.m.state))
    decreases |s| - at
  {
    if at == |s| || Stopped(m.state) then Outcome(m, [], at) else
    var n := Step(cfg, head, m, s[at]);
    if Refused(n.m.state) then Outcome(n.m, n.events, at)
    else After(n.events, Run(cfg, head, n.m, s, at + 1))
  }

  // ---- Invariant -------------------------------------------------------------------------

  /** The largest chunk size that is ever accepted. */
  const MaxSize := Unset - 16

  predicate HeadersInv(head: Head, m: Machine) {
    if m.trailing then head.chunked && m.length == 0 else m.length <= Unset && (head.lengthGiven <==> m.length != Unset)
  }

  /** What holds in every reachable state, and makes the parser's own assertions true. */
  predicate Inv(cfg: Config, head: Head, m: Machine) {
    var s := m.state;
    && (s.HeaderFieldStart? || s.HeadersAlmostDone? ==> HeadersInv(head, m))
    && (s.ChunkSizeStart? ==> m.nread == 0)
    && (s.ChunkSize? || s.ChunkParameters? || s.ChunkSizeAlmostDone? ==> m.length <= MaxSize)
    && (s.ChunkData? ==> 0 < m.length <= MaxSize)
    && (s.ChunkDataAlmostDone? || s.ChunkDataDone? ==> m.length == 0)
    && (s.BodyIdentity? ==> 0 < m.length < Unset)
    && (s.BodyIdentityEof? ==> m.length == Unset)
    && (InChunks(s) ==> head.chunked)
    && (s.BodyIdentity? || s.BodyIdentityEof? ==> !head.chunked)
    && (!Stopped(s) ==> m.nread <= cfg.maxHeader)
  }

  predicate InChunks(s: State) {
    || s.ChunkSizeStart? || s.ChunkSize? || s.ChunkParameters? || s.ChunkSizeAlmostDone?
    || s.ChunkData? || s.ChunkDataAlmostDone? || s.ChunkDataDone?
  }

  lemma HeadersDoneKeepsInv(cfg: Config, head: Head, m: Machine, ch: byte)
    requires m.length <= Unset
    ensures Inv(cfg, head, HeadersDone(cfg, head, m, ch).m)
  {
  }

  lemma AfterHeadersKeepsInv(cfg: Config, head: Head, m: Machine, ch: byte)
    requires m.length <= Unset
    ensures Inv(cfg, head, AfterHeaders(cfg, head, m, ch).m)
  {
    var r := cfg.onHeadersComplete;
    HeadersDoneKeepsInv(cfg, head, m.(upgrade := m.upgrade || r == 2, skipBody := m.skipBody || r != 0), ch);
  }

  lemma EndOfHeadersKeepsInv(cfg: Config, head: Head, m: Machine, ch: byte)
    requires HeadersInv(head, m)
    ensures Inv(cfg, head, EndOfHeaders(cfg, head, m, ch).m)
  {
    var upgrade := if head.upgradeAsked then head.request || head.status == 101 else head.connect;
    AfterHeadersKeepsInv(cfg, head, m.(upgrade := upgrade), ch);
  }

  /** The size accumulator neither wraps nor reaches the sentinel: a digit counts in full or is refused. */
  lemma DigitExact(m: Machine, ch: byte)
    requires Unhex(ch) != -1
    ensures if m.length * 16 + Unhex(ch) <= MaxSize
            then ChunkSizeDigit(m, ch) == Stepped(m.(length := m.length * 16 + Unhex(ch)), [])
            else ChunkSizeDigit(m, ch) == Fail(m, InvalidContentLength)
  {
  }

  lemma SizeKeepsInv(cfg: Config, head: Head, m: Machine, ch: byte)
    requires m.state.ChunkSize? && head.chunked && m.length <= MaxSize && m.nread <= cfg.maxHeader
    ensures Inv(cfg, head, Act(cfg, head, m, ch).m)
  {
    if Unhex(ch) != -1 { DigitExact(m, ch); }
  }

  lemma HeaderKeepsInv(cfg: Config, head: Head, m: Machine, ch: byte)
    requires m.state.HeaderFieldStart? || m.state.HeadersAlmostDone?
    requires HeadersInv(head, m) && m.nread <= cfg.maxHeader
    ensures Inv(cfg, head, Act(cfg, head, m, ch).m)
  {
    EndOfHeadersKeepsInv(cfg, head, m.(state := HeadersAlmostDone), ch);
  }

  lemma ActKeepsInv(cfg: Config, head: Head, m: Machine, ch: byte)
    requires !Stopped(m.state) && Inv(cfg, head, m) && !ParsingHeader(m.state)
    ensures Inv(cfg, head, Act(cfg, head, m, ch).m)
  {
  }

  lemma LineKeepsInv(cfg: Config, head: Head, m: Machine, ch: byte)
    requires m.state.ChunkSizeStart? || m.state.ChunkParameters? || m.state.ChunkSizeAlmostDone?
    requires head.chunked && m.nread <= cfg.maxHeader && (!m.state.ChunkSizeStart? ==> m.length <= MaxSize)
    ensures Inv(cfg, head, Act(cfg, head, m, ch).m)
  {
  }

  /** The invariant once the byte is counted: at the start of a chunk size exactly one byte was read. */
  predicate CountedInv(head: Head, m: Machine) {
    && (m.state.HeaderFieldStart? || m.state.HeadersAlmostDone? ==> HeadersInv(head, m))
    && (m.state.ChunkSizeStart? ==> m.nread == 1)
    && (m.state.ChunkSize? || m.state.ChunkParameters? || m.state.ChunkSizeAlmostDone? ==> m.length <= MaxSize)
    && (InChunks(m.state) ==> head.chunked)
  }

  lemma CheckedKeepsInv(cfg: Config, head: Head, m: Machine, ch: byte)
    requires ParsingHeader(m.state) && CountedInv(head, m)
    ensures Inv(cfg, head, Checked(cfg, head, m, ch).m)
  {
    if m.nread <= cfg.maxHeader {
      if m.state.HeaderFieldStart? || m.state.HeadersAlmostDone? {
        HeaderKeepsInv(cfg, head, m, ch);
      } else if m.state.ChunkSize? {
        SizeKeepsInv(cfg, head, m, ch);
      } else {
        LineKeepsInv(cfg, head, m, ch);
      }
    }
  }

  lemma StepKeepsInv(cfg: Config, head: Head, m: Machine, ch: byte)
    requires Inv(cfg, head, m) && !Stopped(m.state)
    ensures Inv(cfg, head, Step(cfg, head, m, ch).m)
    ensures ParsingHeader(m.state) ==> CountedInv(head, Count(m))
  {
    if ParsingHeader(m.state) {
      CheckedKeepsInv(cfg, head, Count(m), ch);
    } else {
      ActKeepsInv(cfg, head, m, ch);
    }
  }

  lemma {:induction false} RunKeepsInv(cfg: Config, head: Head, m: Machine, s: seq<byte>, at: nat)
    requires Inv(cfg, head, m) && at <= |s|
    ensures Inv(cfg, head, Run(cfg, head, m, s, at).m)
    decreases |s| - at
  {
    if at < |s| && !Stopped(m.state) {
      StepKeepsInv(cfg, head, m, s[at]);
      var n := Step(cfg, head, m, s[at]);
      if !Refused(n.m.state) { RunKeepsInv(cfg, head, n.m, s, at + 1); }
    }
  }
}
