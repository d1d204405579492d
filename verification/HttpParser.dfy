/**
 The parser as it works: a pointer moving over the caller's bytes, jumps over whole runs of data,
 and data callbacks delayed by a mark. It is proved equal to the byte-at-a-time machine.
 */
module HttpParsers {
  import opened Bytes
  import opened HttpBody
  import opened HttpRuns

  /** A callback as it was made: a data fragment, or a notification. */
  datatype Callback = OnBody(fragment: seq<byte>) | OnNotify(e: Event)

  function Meaning(c: Callback): seq<Event> {
    match c
    case OnBody(bytes) => Bodies(bytes, 0, |bytes|)
    case OnNotify(e) => [e]
  }

  /** What the callbacks amount to once adjacent data fragments are merged. */
  function Reported(log: seq<Callback>): seq<Event> {
    if log == [] then [] else Reported(log[..|log| - 1]) + Meaning(log[|log| - 1])
  }

  lemma ConcatAssociates(a: seq<Event>, b: seq<Event>, c: seq<Event>)
    ensures (a + b) + c == a + (b + c)
  {
  }

  class HttpParser {
    const cfg: Config
    const head: Head
    var state: State
    var nread: nat
    var contentLength: nat
    var trailing: bool
    var skipBody: bool
    var upgrade: bool
    var log: seq<Callback>

    function Snapshot(): Machine
      reads this
    {
      Machine(state, nread, contentLength, trailing, skipBody, upgrade)
    }

    /** The parser did what `n` says, having reported `before` already. */
    ghost predicate Did(n: Stepped, before: seq<Event>)
      reads this
    {
      Snapshot() == n.m && Reported(log) == before + n.events
    }

    constructor (cfg: Config, head: Head, m: Machine)
      ensures this.cfg == cfg && this.head == head && Snapshot() == m && log == []
    {
      this.cfg, this.head := cfg, head;
      state, nread, contentLength := m.state, m.nread, m.length;
      trailing, skipBody, upgrade := m.trailing, m.skipBody, m.upgrade;
      log := [];
    }

    method Notify(e: Event)
      modifies this`log
      ensures Reported(log) == old(Reported(log)) + [e]
    {
      log := log + [OnNotify(e)];
    }

    method Report(data: seq<byte>, lo: nat, hi: nat)
      requires lo <= hi <= |data|
      modifies this`log
      ensures Reported(log) == old(Reported(log)) + Bodies(data, lo, hi)
    {
      var fragment := data[lo..hi];
      log := log + [OnBody(fragment)];
      assert Bodies(fragment, 0, |fragment|) == Bodies(data, lo, hi);
    }

    predicate MessageNeedsEof()
      reads this
      ensures MessageNeedsEof() == NeedsEof(head, Snapshot())
    {
      if head.request then false
      else if head.status / 100 == 1 || head.status == 204 || head.status == 304 || skipBody then false
      else if head.chunked || contentLength != Unset then false
      else true
    }

    method NewMessage()
      modifies this`state
      ensures Snapshot() == old(Snapshot()).(state := NewMessageState(cfg, head, old(Snapshot())))
    {
      var keepAlive := head.persistent && !MessageNeedsEof();
      state := State.NewMessage(cfg.strict && !keepAlive);
    }

    /** `s_message_done`, also reached by re-executing a byte. */
    method MessageDone()
      modifies this`state, this`log
      ensures Did(Finish(cfg, head, old(Snapshot()), []), old(Reported(log)))
    {
      NewMessage();
      Notify(MessageComplete);
    }

    method OnHeadersDone(ch: byte, ghost m: Machine)
      requires Snapshot() == m
      modifies this`state, this`nread, this`log
      ensures Did(HeadersDone(cfg, head, m, ch), old(Reported(log)))
    {
      if cfg.strict && ch != LF {
        state := Failed(Strict);
        return;
      }
      nread := 0;
      var hasBody := head.chunked || (contentLength > 0 && contentLength != Unset);
      if upgrade && (head.connect || skipBody || !hasBody) {
        MessageDone();
        return;
      }
      if skipBody {
        MessageDone();
      } else if head.chunked {
        state := ChunkSizeStart;
      } else if contentLength == 0 {
        MessageDone();
      } else if contentLength != Unset {
        state := BodyIdentity;
      } else if !MessageNeedsEof() {
        MessageDone();
      } else {
        state := BodyIdentityEof;
      }
    }

    method OnEndOfHeaders(ch: byte, ghost m: Machine)
      requires Snapshot() == m
      modifies this`state, this`nread, this`upgrade, this`skipBody, this`log
      ensures Did(EndOfHeaders(cfg, head, m, ch), old(Reported(log)))
    {
      if cfg.strict && ch != LF {
        state := Failed(Strict);
        return;
      }
      if trailing {
        OnTrailersOver(m);
        return;
      }
      if head.chunked && head.lengthGiven {
        state := Failed(UnexpectedContentLength);
        return;
      }
      OnHeadersOver(ch, m);
    }

    method OnHeadersOver(ch: byte, ghost m: Machine)
      requires Snapshot() == m
      modifies this`state, this`nread, this`upgrade, this`skipBody, this`log
      ensures Did(HeadersOver(cfg, head, m, ch), old(Reported(log)))
    {
      upgrade := if head.upgradeAsked then head.request || head.status == 101 else head.connect;
      Notify(HeadersComplete);
      ghost var n := AfterHeaders(cfg, head, m.(upgrade := upgrade), ch);
      ConcatAssociates(old(Reported(log)), [HeadersComplete], n.events);
      CallHeadersComplete(ch, m.(upgrade := upgrade));
    }

    /** The end of a chunked message's trailer. */
    method OnTrailersOver(ghost m: Machine)
      requires Snapshot() == m
      modifies this`state, this`log
      ensures Did(Finish(cfg, head, m, [ChunkComplete]), old(Reported(log)))
    {
      Notify(ChunkComplete);
      MessageDone();
    }

    /** The switch on the result of on_headers_complete. */
    method CallHeadersComplete(ch: byte, ghost m: Machine)
      requires Snapshot() == m
      modifies this`state, this`nread, this`upgrade, this`skipBody, this`log
      ensures Did(AfterHeaders(cfg, head, m, ch), old(Reported(log)))
    {
      var r := cfg.onHeadersComplete;
      if r == 2 {
        upgrade := true;
      }
      if r == 1 || r == 2 {
        skipBody := true;
      } else if r != 0 {
        state := Failed(CallbackHeadersComplete);
        return;
      }
      OnHeadersDone(ch, Snapshot());
    }

    method OnHeaderFieldStart(ch: byte, ghost m: Machine)
      requires Snapshot() == m && state.HeaderFieldStart?
      modifies this`state, this`nread, this`upgrade, this`skipBody, this`log
      ensures Did(Act(cfg, head, m, ch), old(Reported(log)))
    {
      if ch == CR {
        state := HeadersAlmostDone;
      } else if ch == LF {
        state := HeadersAlmostDone;
        OnEndOfHeaders(ch, Snapshot());
      } else {
        state := Trailer;
      }
    }

    /** The states of a chunk-size line. */
    method OnSizeLine(ch: byte, ghost m: Machine)
      requires Snapshot() == m && CountedInv(head, m)
      requires m.state.ChunkSizeStart? || m.state.ChunkSize? || m.state.ChunkParameters?
      modifies this`state, this`contentLength
      ensures Did(Act(cfg, head, m, ch), old(Reported(log)))
    {
      assert head.chunked;
      if state == ChunkSizeStart {
        assert nread == 1;
        if Unhex(ch) == -1 {
          state := Failed(InvalidChunkSize);
        } else {
          contentLength := Unhex(ch);
          state := ChunkSize;
        }
      } else if ch == CR {
        state := ChunkSizeAlmostDone;
      } else if state == ChunkSize {
        OnSizeDigit(ch, m);
      }
    }

    method OnSizeDigit(ch: byte, ghost m: Machine)
      requires Snapshot() == m && m.state.ChunkSize? && ch != CR
      modifies this`state, this`contentLength
      ensures Did(Act(cfg, head, m, ch), old(Reported(log)))
    {
      if Unhex(ch) == -1 {
        if ch == ';' as int || ch == ' ' as int {
          state := ChunkParameters;
        } else {
          state := Failed(InvalidChunkSize);
        }
        return;
      }
      var t := (contentLength * 16 + Unhex(ch)) % 0x1_0000_0000_0000_0000;
      if (Unset - 16) / 16 < contentLength {
        state := Failed(InvalidContentLength);
        return;
      }
      contentLength := t;
    }

    method OnSizeAlmostDone(ch: byte, ghost m: Machine)
      requires Snapshot() == m && m.state.ChunkSizeAlmostDone? && head.chunked
      modifies this`state, this`nread, this`trailing, this`log
      ensures Did(Act(cfg, head, m, ch), old(Reported(log)))
    {
      assert head.chunked;
      if cfg.strict && ch != LF {
        state := Failed(Strict);
        return;
      }
      nread := 0;
      if contentLength == 0 {
        trailing := true;
        state := HeaderFieldStart;
      } else {
        state := ChunkData;
      }
      Notify(ChunkHeader(contentLength));
    }

    method OnChunkDataDone(ch: byte, ghost m: Machine)
      requires Snapshot() == m && m.state.ChunkDataDone? && head.chunked
      modifies this`state, this`nread, this`log
      ensures Did(Act(cfg, head, m, ch), old(Reported(log)))
    {
      assert head.chunked;
      if cfg.strict && ch != LF {
        state := Failed(Strict);
        return;
      }
      nread := 0;
      state := ChunkSizeStart;
      Notify(ChunkComplete);
    }

    /** One byte outside the data of a body. */
    method OnByte(ch: byte, ghost m: Machine)
      requires Snapshot() == m && Inv(cfg, head, m) && !Stopped(m.state)
      requires ParsingHeader(m.state) || m.state.ChunkDataDone?
      modifies this
      ensures Did(Step(cfg, head, m, ch), old(Reported(log)))
    {
      StepKeepsInv(cfg, head, m, ch);
      if ParsingHeader(state) {
        nread := nread + 1;
        if nread > cfg.maxHeader {
          state := Failed(HeaderOverflow);
          return;
        }
      }
      Dispatch(ch, Count(m));
    }

    /** The switch on the state. */
    method Dispatch(ch: byte, ghost m: Machine)
      requires Snapshot() == m
      requires if m.state.ChunkDataDone? then head.chunked else ParsingHeader(m.state) && CountedInv(head, m)
      modifies this
      ensures Did(Act(cfg, head, m, ch), old(Reported(log)))
    {
      if state.HeaderFieldStart? {
        OnHeaderFieldStart(ch, m);
      } else if state.HeadersAlmostDone? {
        OnEndOfHeaders(ch, m);
      } else if state.ChunkSizeAlmostDone? {
        OnSizeAlmostDone(ch, m);
      } else if state.ChunkDataDone? {
        OnChunkDataDone(ch, m);
      } else {
        OnSizeLine(ch, m);
      }
    }

    /** What was reported, with the data from the mark up to `p` that is still to be. */
    ghost function Shown(data: seq<byte>, p: nat, mark: Option<nat>): seq<Event>
      requires p <= |data| && (mark.Some? ==> mark.value <= p)
      reads this
    {
      if mark.None? then Reported(log) else Reported(log) + Bodies(data, mark.value, p)
    }

    /** At `p` of `data` the rest of the run `r` is still to come. */
    ghost predicate Follows(data: seq<byte>, p: nat, mark: Option<nat>, r: Outcome)
      reads this
    {
      && p <= |data| && Inv(cfg, head, Snapshot())
      && (mark.Some? ==> mark.value <= p && (p < |data| ==> state.ChunkDataAlmostDone?))
      && Leads(cfg, head, Snapshot(), data, p, Shown(data, p, mark), r)
    }

    /** The run is over at `p`; the data from the mark on will never be reported. */
    ghost predicate Over(data: seq<byte>, p: nat, mark: Option<nat>, r: Outcome)
      reads this
    {
      && p <= |data| && (mark.Some? ==> mark.value <= p)
      && r == Outcome(Snapshot(), Shown(data, p, mark), p)
    }

    method TakeByte(data: seq<byte>, p: nat, ghost r: Outcome)
      requires Follows(data, p, None, r) && p < |data| && (ParsingHeader(state) || state.ChunkDataDone?)
      modifies this
      ensures if Refused(state) then Over(data, p, None, r) else Follows(data, p + 1, None, r)
      ensures Did(Step(cfg, head, old(Snapshot()), data[p]), old(Reported(log)))
    {
      ghost var m := Snapshot();
      LeadsOn(cfg, head, m, data, p, Reported(log), r, Step(cfg, head, m, data[p]));
      StepKeepsInv(cfg, head, m, data[p]);
      OnByte(data[p], m);
    }

    /** The byte after a chunk's data: CALLBACK_DATA(body). */
    method TakeAfterData(data: seq<byte>, p: nat, mark: Option<nat>, ghost r: Outcome)
      requires Follows(data, p, mark, r) && p < |data| && state.ChunkDataAlmostDone?
      modifies this`state, this`log
      ensures Refused(state) <==> cfg.strict && data[p] != CR
      ensures if Refused(state) then Over(data, p, mark, r) && state == Failed(Strict) && log == old(log)
              else Follows(data, p + 1, None, r) && state.ChunkDataDone? && |Reported(log)| >= old(|Reported(log)|)
    {
      assert head.chunked && contentLength == 0;
      LeadsPastData(cfg, head, Snapshot(), data, p, Shown(data, p, mark), r);
      if cfg.strict && data[p] != CR {
        state := Failed(Strict);
        return;
      }
      EndData(data, p, mark, r);
    }

    method EndData(data: seq<byte>, p: nat, mark: Option<nat>, ghost r: Outcome)
      requires p < |data| && (mark.Some? ==> mark.value <= p) && Inv(cfg, head, Snapshot())
               && state.ChunkDataAlmostDone?
      requires Leads(cfg, head, Snapshot().(state := ChunkDataDone), data, p + 1, Shown(data, p, mark), r)
      modifies this`state, this`log
      ensures Follows(data, p + 1, None, r) && state.ChunkDataDone? && |Reported(log)| >= old(|Reported(log)|)
    {
      Flush(data, p, mark);
      state := ChunkDataDone;
    }

    /** The data callback, when the mark is set. */
    method Flush(data: seq<byte>, p: nat, mark: Option<nat>)
      requires p <= |data| && (mark.Some? ==> mark.value <= p)
      modifies this`log
      ensures Reported(log) == old(Shown(data, p, mark))
    {
      if mark.Some? {
        Report(data, mark.value, p);
      }
    }

    /** MARK(body), then the jump over chunk data. */
    method JumpChunk(data: seq<byte>, p: nat, ghost r: Outcome) returns (p': nat)
      requires Follows(data, p, None, r) && p < |data| && state.ChunkData?
      modifies this`state, this`contentLength
      ensures p < p' <= |data| && Follows(data, p', Some(p), r) && p' - p <= old(contentLength)
      ensures Snapshot() == Jumped(old(Snapshot()), p' - p)
    {
      assert head.chunked && contentLength != 0 && contentLength != Unset;
      var toRead := if contentLength < |data| - p then contentLength else |data| - p;
      LeadsOverChunk(cfg, head, Snapshot(), data, p, Reported(log), r, toRead);
      JumpedInv(cfg, head, Snapshot(), toRead);
      contentLength := contentLength - toRead;
      p' := p + toRead;
      if contentLength == 0 {
        state := ChunkDataAlmostDone;
      }
    }

    /** MARK(body), then the jump over an identity body; its end completes the message. */
    method JumpIdentity(data: seq<byte>, p: nat, ghost r: Outcome) returns (p': nat)
      requires Follows(data, p, None, r) && p < |data| && state.BodyIdentity?
      modifies this`state, this`contentLength, this`log
      ensures p < p' <= |data|
      ensures if Stopped(state) then Over(data, p', None, r) && !Refused(state)
              else p' == |data| && Follows(data, p', Some(p), r) && log == old(log) &&
                   p' - p < old(contentLength) && Snapshot() == Skipped(old(Snapshot()), p' - p)
    {
      assert contentLength != 0 && contentLength != Unset;
      if |data| - p < contentLength {
        var toRead := |data| - p;
        p' := |data|;
        LeadsInBody(cfg, head, Snapshot(), data, p, Reported(log), r, toRead);
        contentLength := contentLength - toRead;
      } else {
        p' := p + contentLength;
        EndIdentity(data, p, p', r);
      }
    }

    method EndIdentity(data: seq<byte>, p: nat, p': nat, ghost r: Outcome)
      requires Follows(data, p, None, r) && state.BodyIdentity? && p' == p + contentLength <= |data|
      modifies this`state, this`contentLength, this`log
      ensures Over(data, p', None, r) && Stopped(state) && !Refused(state)
    {
      LeadsToEnd(cfg, head, Snapshot(), data, p, Reported(log), r);
      ConcatAssociates(Reported(log), Bodies(data, p, p'), [MessageComplete]);
      contentLength := 0;
      Report(data, p, p');
      MessageDone();
    }

    method JumpEof(data: seq<byte>, p: nat, ghost r: Outcome) returns (p': nat)
      requires Follows(data, p, None, r) && p < |data| && state.BodyIdentityEof?
      ensures p' == |data| && Follows(data, p', Some(p), r)
    {
      LeadsToEof(cfg, head, Snapshot(), data, p, Reported(log), r);
      p' := |data|;
    }

    /** Something was reported since `base` reports, and last not data. */
    ghost predicate Plain(base: nat)
      reads this
    {
      |Reported(log)| > base && !Reported(log)[|Reported(log)| - 1].Body?
    }

    /** The mark stands where this call, which began with `base` reports, entered the chunk. */
    ghost predicate MarksChunk(mark: Option<nat>, p: nat, base: nat)
      reads this
    {
      mark.Some? && mark.value < p && if mark.value == 0 then |Reported(log)| == base else Plain(base)
    }

    /** Along the path `at`, the mark is set inside a chunk and behind it. */
    ghost predicate Marks(at: nat -> Machine, p: nat, mark: Option<nat>, base: nat)
      reads this
    {
      && at(p) == Snapshot() && (p == 0 ==> mark.None? && |Reported(log)| == base) && |Reported(log)| >= base
      && (state.ChunkDataAlmostDone? && p > 0 ==> MarksChunk(mark, p, base))
      && (state.ChunkData? && p > 0 ==> (if mark.None? then Plain(base) else MarksChunk(mark, p, base)))
    }

    /** The data from the mark on is lost exactly when the byte right after chunk data of this call is refused. */
    ghost predicate LossMeans(at: nat -> Machine, p: nat, mark: Option<nat>, base: nat)
      reads this
    {
      && (mark.Some? <==> p > 0 && state == Failed(Strict) && at(p).state.ChunkDataAlmostDone?)
      && (mark.Some? ==> MarksChunk(mark, p, base)) && (mark.None? || |Reported(log)| >= base)
    }

    method MarkByte(data: seq<byte>, p: nat, ghost r: Outcome, ghost at: nat -> Machine, ghost base: nat)
      requires Follows(data, p, None, r) && p < |data| && (ParsingHeader(state) || state.ChunkDataDone?)
      requires Linked(cfg, head, at, data) && Marks(at, p, None, base)
      modifies this
      ensures var p' := if Refused(state) then p else p + 1;
              if Stopped(state) then Over(data, p', None, r) && LossMeans(at, p', None, base)
              else Follows(data, p', None, r) && Marks(at, p', None, base)
    {
      assert Link(cfg, head, at, data, p);
      IntoChunk(cfg, head, Snapshot(), data[p]);
      TakeByte(data, p, r);
      if Stopped(state) && !Refused(state) { LeadsNowhere(cfg, head, Snapshot(), data, p + 1, Reported(log), r); }
    }

    method MarkAfterData(data: seq<byte>, p: nat, mark: Option<nat>, ghost r: Outcome, ghost at: nat -> Machine,
        ghost base: nat)
      requires Follows(data, p, mark, r) && p < |data| && state.ChunkDataAlmostDone?
      requires Linked(cfg, head, at, data) && Marks(at, p, mark, base)
      modifies this`state, this`log
      ensures if Stopped(state) then Refused(state) && Over(data, p, mark, r) && LossMeans(at, p, mark, base)
              else Follows(data, p + 1, None, r) && Marks(at, p + 1, None, base)
    {
      PathAfterData(cfg, head, at, data, p);
      TakeAfterData(data, p, mark, r);
    }

    method MarkChunk(data: seq<byte>, p: nat, ghost r: Outcome, ghost at: nat -> Machine, ghost base: nat)
        returns (p': nat)
      requires Follows(data, p, None, r) && p < |data| && state.ChunkData?
      requires Linked(cfg, head, at, data) && Marks(at, p, None, base)
      modifies this`state, this`contentLength
      ensures p < p' <= |data| && Follows(data, p', Some(p), r) && !Stopped(state) && Marks(at, p', Some(p), base)
    {
      p' := JumpChunk(data, p, r);
      PathOverChunk(cfg, head, at, data, p, p' - p);
    }

    method MarkBody(data: seq<byte>, p: nat, ghost r: Outcome, ghost at: nat -> Machine, ghost base: nat)
        returns (p': nat)
      requires Follows(data, p, None, r) && p < |data| && (state.BodyIdentity? || state.BodyIdentityEof?)
      requires Linked(cfg, head, at, data) && Marks(at, p, None, base)
      modifies this`state, this`contentLength, this`log
      ensures p < p' <= |data|
      ensures if Stopped(state) then Over(data, p', None, r) && LossMeans(at, p', None, base)
              else Follows(data, p', Some(p), r) && Marks(at, p', Some(p), base)
    {
      if state.BodyIdentity? {
        p' := JumpIdentity(data, p, r);
        if !Stopped(state) { PathInData(cfg, head, at, data, p, p' - p); }
      } else {
        p' := JumpEof(data, p, r);
        PathToEof(cfg, head, at, data, p, p');
      }
    }

    /** One round of the loop over the bytes. */
    method Advance(data: seq<byte>, p: nat, mark: Option<nat>, ghost r: Outcome, ghost at: nat -> Machine,
        ghost base: nat)
        returns (p': nat, mark': Option<nat>)
      requires Follows(data, p, mark, r) && p < |data| && !Stopped(state)
      requires Linked(cfg, head, at, data) && Marks(at, p, mark, base)
      modifies this
      ensures p <= p'
      ensures if Stopped(state) then Over(data, p', mark', r) && LossMeans(at, p', mark', base)
              else p < p' && Follows(data, p', mark', r) && Marks(at, p', mark', base)
    {
      if state.ChunkDataAlmostDone? {
        MarkAfterData(data, p, mark, r, at, base);
        if Refused(state) { return p, mark; }
        p', mark' := p + 1, None;
      } else if state.ChunkData? {
        p' := MarkChunk(data, p, r, at, base);
        mark' := Some(p);
      } else if state.BodyIdentity? || state.BodyIdentityEof? {
        p' := MarkBody(data, p, r, at, base);
        mark' := if Stopped(state) then None else Some(p);
      } else {
        MarkByte(data, p, r, at, base);
        p', mark' := if Refused(state) then p else p + 1, None;
      }
    }

    /** A call with bytes, on a parser that has not stopped: the loop, then the callback for data still marked. */
    method ExecuteBytes(data: seq<byte>, ghost r: Outcome, ghost at: nat -> Machine) returns (p: nat, mark: Option<nat>)
      requires Follows(data, 0, None, r) && !Stopped(state) && Linked(cfg, head, at, data) && at(0) == Snapshot()
      modifies this
      ensures Over(data, p, mark, r) && Inv(cfg, head, Snapshot()) && LossMeans(at, p, mark, old(|Reported(log)|))
    {
      p, mark := 0, None;
      ghost var base := |Reported(log)|;
      while p < |data| && !Stopped(state)
        invariant if Stopped(state) then Over(data, p, mark, r) && LossMeans(at, p, mark, base)
                  else Follows(data, p, mark, r) && Marks(at, p, mark, base)
        decreases |data| - p, !Stopped(state)
      {
        p, mark := Advance(data, p, mark, r, at, base);
      }
      if !Stopped(state) {
        LeadsNowhere(cfg, head, Snapshot(), data, p, Shown(data, p, mark), r);
        Flush(data, p, mark);
        mark := None;
      } else {
        StoppedInv(cfg, head, Snapshot());
      }
    }

    /** A call with no bytes: the end of the input. */
    method ExecuteEof() returns (n: nat)
      modifies this`state, this`log
      ensures old(state).Failed? || old(state).NewMessage? ==> n == 0 && log == old(log) && state == old(state)
      ensures old(state).BodyIdentityEof? ==>
                && n == 0 && log == old(log) + [OnNotify(MessageComplete)]
                && state == old(state)
      ensures !old(state).Failed? && !old(state).NewMessage? && !old(state).BodyIdentityEof? ==>
                n == 1 && log == old(log) && state == Failed(InvalidEofState)
    {
      if state.Failed? || state.NewMessage? { return 0; }
      if state.BodyIdentityEof? {
        log := log + [OnNotify(MessageComplete)];
        return 0;
      }
      state := Failed(InvalidEofState);
      n := 1;
    }

    /**
     A call with bytes. It does what stepping through them one by one does, reports the same
     data and notifications, and consumes the same bytes; the one difference is that a strict
     failure right after a chunk drops that chunk's data of this call, which `Lost` defines.
     */
    method Execute(data: seq<byte>) returns (n: nat, ghost lost: seq<Event>)
      requires data != [] && Inv(cfg, head, Snapshot()) && !state.NewMessage? && !state.Trailer?
      modifies this
      ensures var r := Run(cfg, head, old(Snapshot()), data, 0);
              Snapshot() == r.m && n == r.end && Reported(log) + lost == old(Reported(log)) + r.events
      ensures Inv(cfg, head, Snapshot()) && lost == Lost(cfg, head, old(Snapshot()), data)
      ensures lost != [] <==>
                && n > 0 && state == Failed(Strict)
                && StateAt(cfg, head, old(Snapshot()), data, n).state.ChunkDataAlmostDone?
    {
      lost := [];
      if state.Failed? { return 0, []; }
      ghost var before, m := Reported(log), Snapshot();
      ghost var run := Run(cfg, head, m, data, 0);
      PathIsLinked(cfg, head, m, data);
      LeadsIs(cfg, head, m, data, 0, before, After(before, run));
      var mark;
      n, mark := ExecuteBytes(data, After(before, run), Path(cfg, head, m, data));
      if mark.Some? {
        lost := Bodies(data, mark.value, n);
        LostIs(Reported(log), before, run.events, lost);
      }
    }

    /** Pieces in a row, until the parser stops: the same as one call with all of them. */
    method ExecuteAll(pieces: seq<seq<byte>>) returns (total: nat, ghost lost: seq<Event>)
      requires (forall i :: 0 <= i < |pieces| ==> pieces[i] != []) && Inv(cfg, head, Snapshot()) && !Stopped(state)
      modifies this
      ensures var r := Run(cfg, head, old(Snapshot()), Joined(pieces), 0);
              Snapshot() == r.m && total == r.end && Reported(log) + lost == old(Reported(log)) + r.events
      ensures lost == LostInPieces(cfg, head, old(Snapshot()), pieces)
    {
      SplitInvariance(cfg, head, Snapshot(), pieces);
      total, lost := ExecuteRest(pieces);
    }

    method ExecuteRest(pieces: seq<seq<byte>>) returns (total: nat, ghost lost: seq<Event>)
      requires (forall i :: 0 <= i < |pieces| ==> pieces[i] != []) && Inv(cfg, head, Snapshot()) && !Stopped(state)
      modifies this
      ensures var r := RunPieces(cfg, head, old(Snapshot()), pieces);
              Snapshot() == r.m && total == r.end && Reported(log) + lost == old(Reported(log)) + r.events
      ensures lost == LostInPieces(cfg, head, old(Snapshot()), pieces)
      decreases |pieces|
    {
      if pieces == [] { return 0, []; }
      total, lost := Execute(pieces[0]);
      if Stopped(state) { return; }
      var more;
      ghost var before := old(Reported(log));
      ghost var r, rest := Run(cfg, head, old(Snapshot()), pieces[0], 0), RunPieces(cfg, head, Snapshot(), pieces[1..]);
      assert Reported(log) == before + r.events;
      ConcatAssociates(before, r.events, rest.events);
      more, lost := ExecuteRest(pieces[1..]);
      total := total + more;
    }
  }

  /** The data left out is all the data with which the reports of the call would have ended. */
  lemma LostIs(shown: seq<Event>, before: seq<Event>, events: seq<Event>, lost: seq<Event>)
    requires shown + lost == before + events && |shown| >= |before| && forall i :: 0 <= i < |lost| ==> lost[i].Body?
    requires |shown| == |before| || !shown[|shown| - 1].Body?
    ensures Trailing(events) == lost
  {
    var x := events[..|shown| - |before|];
    assert events == x + lost by {
      forall i | 0 <= i < |events|
        ensures events[i] == (x + lost)[i]
      {
        assert (before + events)[|before| + i] == (shown + lost)[|before| + i];
      }
    }
    if x != [] { assert x[|x| - 1] == (before + events)[|shown| - 1] == (shown + lost)[|shown| - 1]; }
    TrailingIs(x, lost);
  }

  lemma LeadsPastData(cfg: Config, head: Head, m: Machine, s: seq<byte>, at: nat, seen: seq<Event>, r: Outcome)
    requires m.state.ChunkDataAlmostDone? && at < |s| && Leads(cfg, head, m, s, at, seen, r)
    ensures if cfg.strict && s[at] != CR then r == Outcome(m.(state := Failed(Strict)), seen, at)
            else Leads(cfg, head, m.(state := ChunkDataDone), s, at + 1, seen, r)
  {
    AfterDataState(cfg, head, m, s[at]);
    LeadsOn(cfg, head, m, s, at, seen, r, Step(cfg, head, m, s[at]));
    assert seen + [] == seen;
  }

  lemma AfterDataState(cfg: Config, head: Head, m: Machine, ch: byte)
    requires m.state.ChunkDataAlmostDone?
    ensures Step(cfg, head, m, ch) ==
              Stepped(m.(state := if cfg.strict && ch != CR then Failed(Strict) else ChunkDataDone), [])
  {
  }

  lemma PathAfterData(cfg: Config, head: Head, at: nat -> Machine, s: seq<byte>, p: nat)
    requires p < |s| && Linked(cfg, head, at, s) && at(p).state.ChunkDataAlmostDone?
    ensures at(p + 1) == at(p).(state := if cfg.strict && s[p] != CR then Failed(Strict) else ChunkDataDone)
  {
    assert Link(cfg, head, at, s, p);
    AfterDataState(cfg, head, at(p), s[p]);
  }

  lemma JumpedInv(cfg: Config, head: Head, m: Machine, k: nat)
    requires Inv(cfg, head, m) && m.state.ChunkData? && 0 < k <= m.length
    ensures Inv(cfg, head, Jumped(m, k)) && !Stopped(Jumped(m, k).state)
    ensures k < m.length || Jumped(m, k).state.ChunkDataAlmostDone?
  {
  }

  lemma StoppedInv(cfg: Config, head: Head, m: Machine)
    requires Stopped(m.state)
    ensures Inv(cfg, head, m)
  {
  }

  // ---- Cutting the input changes what is reported ----------------------------------------

  const StrictConfig := Config(true, 80, 0)
  const ChunkedHead := Head(true, false, 0, true, true, false, false)

  /** One byte of chunk data is still to come. */
  const OneLeft := Machine(ChunkData, 0, 1, false, false, false)

  lemma OneLeftRuns()
    ensures var failed := OneLeft.(length := 0, state := Failed(Strict));
            && Run(StrictConfig, ChunkedHead, OneLeft, [97, 98], 0) == Outcome(failed, [Body(97)], 1)
            && Run(StrictConfig, ChunkedHead, OneLeft, [97], 0) == Outcome(Jumped(OneLeft, 1), [Body(97)], 1)
            && Run(StrictConfig, ChunkedHead, Jumped(OneLeft, 1), [98], 0) == Outcome(failed, [], 0)
  {
    var after := Jumped(OneLeft, 1);
    LastDataStep(StrictConfig, ChunkedHead, OneLeft, 97);
    AfterDataState(StrictConfig, ChunkedHead, after, 98);
    OneMore(StrictConfig, ChunkedHead, OneLeft, [97, 98], 0, [], Stepped(after, [Body(97)]));
    OneMore(StrictConfig, ChunkedHead, after, [97, 98], 1, [Body(97)], Stepped(after.(state := Failed(Strict)), []));
    OneMore(StrictConfig, ChunkedHead, OneLeft, [97], 0, [], Stepped(after, [Body(97)]));
    OneMore(StrictConfig, ChunkedHead, after, [98], 0, [], Stepped(after.(state := Failed(Strict)), []));
    AfterNothing(Run(StrictConfig, ChunkedHead, OneLeft, [97, 98], 0));
    AfterNothing(Run(StrictConfig, ChunkedHead, OneLeft, [97], 0));
    AfterNothing(Run(StrictConfig, ChunkedHead, after, [98], 0));
  }

  lemma OneLeftLoses()
    ensures Lost(StrictConfig, ChunkedHead, OneLeft, [97, 98]) == [Body(97)]
  {
    OneLeftRuns();
    LastDataStep(StrictConfig, ChunkedHead, OneLeft, 97);
    assert StateAt(StrictConfig, ChunkedHead, OneLeft, [97, 98], 1) == Jumped(OneLeft, 1);
    TrailingIs([], [Body(97)]);
    assert [] + [Body(97)] == [Body(97)];
  }

  /** The same two bytes, in one call and in two: both fail, and only the second reports the data. */
  method CutMatters() returns (one: HttpParser, two: HttpParser)
    ensures one.Snapshot() == two.Snapshot() && one.state == Failed(Strict)
    ensures Reported(one.log) == [] && Reported(two.log) == [Body(97)]
  {
    one := new HttpParser(StrictConfig, ChunkedHead, OneLeft);
    two := new HttpParser(StrictConfig, ChunkedHead, OneLeft);
    OneLeftRuns();
    OneLeftLoses();
    var _, l1 := one.Execute([97, 98]);
    var _, l2 := two.Execute([97]);
    assert Reported(two.log) == [Body(97)];
    var _, l3 := two.Execute([98]);
  }
}
