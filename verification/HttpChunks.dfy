/** Chunked bodies: what an encoder writes, the parser takes apart again. */
module HttpChunks {
  import opened Bytes
  import opened HttpBody
  import opened HttpRuns

  /** The number read digit by digit from s[lo..hi], after `v`. */
  function HexFrom(v: nat, s: seq<byte>, lo: nat, hi: nat): nat
    requires hi <= |s| && forall i :: lo <= i < hi ==> Unhex(s[i]) != -1
    decreases hi - lo
  {
    if lo >= hi then v else HexFrom(v * 16 + Unhex(s[lo]), s, lo + 1, hi)
  }

  /** A chunk as sent: its size in hexadecimal, of either case and with any leading zeros, and its data. */
  datatype Chunk = Chunk(size: seq<byte>, data: seq<byte>)

  predicate IsHex(s: seq<byte>) { |s| >= 1 && forall i :: 0 <= i < |s| ==> Unhex(s[i]) != -1 }

  predicate WellFormed(c: Chunk) {
    IsHex(c.size) && HexFrom(0, c.size, 0, |c.size|) == |c.data| && c.data != []
  }

  function EncodeChunk(c: Chunk): seq<byte> { c.size + [CR, LF] + c.data + [CR, LF] }

  function ChunkEvents(c: Chunk): seq<Event> {
    [ChunkHeader(|c.data|)] + Bodies(c.data, 0, |c.data|) + [ChunkComplete]
  }

  lemma {:induction false} HexFromGrows(v: nat, s: seq<byte>, lo: nat, hi: nat)
    requires hi <= |s| && forall i :: lo <= i < hi ==> Unhex(s[i]) != -1
    ensures v <= HexFrom(v, s, lo, hi)
    decreases hi - lo
  {
    if lo < hi { HexFromGrows(v * 16 + Unhex(s[lo]), s, lo + 1, hi); }
  }

  /** From `m` at `at` the run reports `events` and goes on from `m'` at `at'`. */
  ghost predicate Goes(cfg: Config, head: Head, s: seq<byte>, m: Machine, at: nat, events: seq<Event>, m': Machine,
      at': nat)
  {
    at <= at' <= |s| && Run(cfg, head, m, s, at) == After(events, Run(cfg, head, m', s, at'))
  }

  lemma Chain(cfg: Config, head: Head, s: seq<byte>, m: Machine, at: nat, events: seq<Event>, m': Machine, at': nat,
              events': seq<Event>, m'': Machine, at'': nat)
    requires Goes(cfg, head, s, m, at, events, m', at') && Goes(cfg, head, s, m', at', events', m'', at'')
    ensures Goes(cfg, head, s, m, at, events + events', m'', at'')
  {
    AfterAfter(events, events', Run(cfg, head, m'', s, at''));
  }

  lemma OneStep(cfg: Config, head: Head, s: seq<byte>, m: Machine, at: nat, n: Stepped)
    requires at < |s| && !Stopped(m.state) && n == Step(cfg, head, m, s[at]) && !Refused(n.m.state)
    ensures Goes(cfg, head, s, m, at, n.events, n.m, at + 1)
  {
  }

  /** The machine inside a size line, after digits worth `v`. */
  function InSize(m: Machine, v: nat, nread: nat): Machine {
    m.(state := ChunkSize, length := v, nread := nread)
  }

  lemma OneDigit(cfg: Config, head: Head, m: Machine, v: nat, r: nat, ch: byte)
    requires Unhex(ch) != -1 && r < cfg.maxHeader
    ensures Step(cfg, head, InSize(m, v, r), ch) ==
            if v * 16 + Unhex(ch) <= MaxSize then Stepped(InSize(m, v * 16 + Unhex(ch), r + 1), [])
            else Stepped(InSize(m, v, r + 1).(state := Failed(InvalidContentLength)), [])
  {
    DigitExact(InSize(m, v, r + 1), ch);
  }

  lemma DigitGoes(cfg: Config, head: Head, m: Machine, v: nat, r: nat, s: seq<byte>, at: nat, v': nat)
    requires at < |s| && Unhex(s[at]) != -1 && r < cfg.maxHeader && v' == v * 16 + Unhex(s[at]) <= MaxSize
    ensures Goes(cfg, head, s, InSize(m, v, r), at, [], InSize(m, v', r + 1), at + 1)
  {
    OneDigit(cfg, head, m, v, r, s[at]);
    OneStep(cfg, head, s, InSize(m, v, r), at, Stepped(InSize(m, v', r + 1), []));
  }

  /** Digits are read as their exact value, as long as that is at most `MaxSize`. */
  lemma {:induction false} DigitsAccepted(cfg: Config, head: Head, m: Machine, v: nat, r: nat, s: seq<byte>, lo: nat,
      hi: nat, x: nat, r': nat)
    requires lo <= hi <= |s| && forall i :: lo <= i < hi ==> Unhex(s[i]) != -1
    requires r' == r + (hi - lo) <= cfg.maxHeader && x == HexFrom(v, s, lo, hi) <= MaxSize
    ensures Goes(cfg, head, s, InSize(m, v, r), lo, [], InSize(m, x, r'), hi)
    decreases hi - lo
  {
    if lo < hi {
      var v' := v * 16 + Unhex(s[lo]);
      HexFromGrows(v', s, lo + 1, hi);
      DigitGoes(cfg, head, m, v, r, s, lo, v');
      DigitsAccepted(cfg, head, m, v', r + 1, s, lo + 1, hi, x, r');
      Chain(cfg, head, s, InSize(m, v, r), lo, [], InSize(m, v', r + 1), lo + 1, [], InSize(m, x, r'), hi);
    } else {
      AfterNothing(Run(cfg, head, InSize(m, v, r), s, lo));
    }
  }

  /** Past that, a digit is refused: the accumulator never wraps and never meets the sentinel. */
  lemma {:induction false} DigitsRefused(cfg: Config, head: Head, m: Machine, v: nat, r: nat, s: seq<byte>, lo: nat,
      hi: nat)
    requires lo <= hi <= |s| && forall i :: lo <= i < hi ==> Unhex(s[i]) != -1
    requires r + (hi - lo) <= cfg.maxHeader && v <= MaxSize < HexFrom(v, s, lo, hi)
    ensures Run(cfg, head, InSize(m, v, r), s, lo).m.state == Failed(InvalidContentLength)
    decreases hi - lo
  {
    var v' := v * 16 + Unhex(s[lo]);
    OneDigit(cfg, head, m, v, r, s[lo]);
    if v' <= MaxSize {
      OneStep(cfg, head, s, InSize(m, v, r), lo, Stepped(InSize(m, v', r + 1), []));
      DigitsRefused(cfg, head, m, v', r + 1, s, lo + 1, hi);
    }
  }

  /** The machine between chunks. */
  function Between(m: Machine): Machine { m.(state := ChunkSizeStart, nread := 0, length := 0) }

  function InChunk(m: Machine, n: nat): Machine { m.(state := ChunkData, nread := 0, length := n) }

  lemma FirstDigit(cfg: Config, head: Head, m: Machine, ch: byte)
    requires m.state.ChunkSizeStart? && m.nread == 0 && Unhex(ch) != -1 && 1 <= cfg.maxHeader
    ensures Step(cfg, head, m, ch) == Stepped(InSize(m, Unhex(ch), 1), [])
  {
  }

  lemma FirstDigitGoes(cfg: Config, head: Head, m: Machine, s: seq<byte>, at: nat)
    requires m.state.ChunkSizeStart? && m.nread == 0 && at < |s| && Unhex(s[at]) != -1 && 1 <= cfg.maxHeader
    ensures Goes(cfg, head, s, m, at, [], InSize(m, Unhex(s[at]), 1), at + 1)
  {
    FirstDigit(cfg, head, m, s[at]);
    OneStep(cfg, head, s, m, at, Stepped(InSize(m, Unhex(s[at]), 1), []));
  }

  /** A whole size, from its first digit: accepted exactly when its value is at most `MaxSize`. */
  lemma SizeRuns(cfg: Config, head: Head, m: Machine, s: seq<byte>, at: nat, size: seq<byte>, v: nat)
    requires m.state.ChunkSizeStart? && m.nread == 0 && IsHex(size) && |size| <= cfg.maxHeader && Occurs(s, at, size)
    requires v == HexFrom(0, size, 0, |size|)
    ensures if v <= MaxSize then Goes(cfg, head, s, m, at, [], InSize(m, v, |size|), at + |size|)
            else Run(cfg, head, m, s, at).m.state == Failed(InvalidContentLength)
  {
    var d := Unhex(size[0]);
    assert s[at + 0] == size[0];
    FirstDigitGoes(cfg, head, m, s, at);
    HexOccurs(d, size, 1, s, at);
    assert v == HexFrom(d, size, 1, |size|);
    if v <= MaxSize {
      DigitsAccepted(cfg, head, m, d, 1, s, at + 1, at + |size|, v, |size|);
      Chain(cfg, head, s, m, at, [], InSize(m, d, 1), at + 1, [], InSize(m, v, |size|), at + |size|);
    } else {
      DigitsRefused(cfg, head, m, d, 1, s, at + 1, at + |size|);
    }
  }

  lemma {:induction false} HexOccurs(v: nat, size: seq<byte>, i: nat, s: seq<byte>, at: nat)
    requires IsHex(size) && Occurs(s, at, size) && i <= |size|
    ensures forall j :: at + i <= j < at + |size| ==> Unhex(s[j]) != -1
    ensures HexFrom(v, s, at + i, at + |size|) == HexFrom(v, size, i, |size|)
    decreases |size| - i
  {
    assert forall j :: at + i <= j < at + |size| ==> s[j] == size[j - at];
    if i < |size| { HexOccurs(v * 16 + Unhex(size[i]), size, i + 1, s, at); }
  }

  /** The end of a size line of a chunk with data. */
  lemma LineEndRuns(cfg: Config, head: Head, m: Machine, s: seq<byte>, at: nat, n: nat, r: nat)
    requires 0 < n && r + 2 <= cfg.maxHeader && at + 2 <= |s| && s[at] == CR && s[at + 1] == LF
    ensures Goes(cfg, head, s, InSize(m, n, r), at, [ChunkHeader(n)], InChunk(m, n), at + 2)
  {
    var m0 := InSize(m, n, r);
    var m1 := m0.(state := ChunkSizeAlmostDone, nread := r + 1);
    OneStep(cfg, head, s, m0, at, Stepped(m1, []));
    OneStep(cfg, head, s, m1, at + 1, Stepped(InChunk(m, n), [ChunkHeader(n)]));
    Chain(cfg, head, s, m0, at, [], m1, at + 1, [ChunkHeader(n)], InChunk(m, n), at + 2);
  }

  lemma DataRuns(cfg: Config, head: Head, m: Machine, s: seq<byte>, at: nat, data: seq<byte>)
    requires data != [] && Occurs(s, at, data)
    ensures Goes(cfg, head, s, InChunk(m, |data|), at, Bodies(data, 0, |data|),
            InChunk(m, 0).(state := ChunkDataAlmostDone), at + |data|)
  {
    ChunkJumpIs(cfg, head, InChunk(m, |data|), s, at, |data|);
    assert Bodies(s, at, at + |data|) == Bodies(data, 0, |data|);
  }

  lemma DataEndRuns(cfg: Config, head: Head, m: Machine, s: seq<byte>, at: nat)
    requires at + 2 <= |s| && s[at] == CR && s[at + 1] == LF
    ensures Goes(cfg, head, s, InChunk(m, 0).(state := ChunkDataAlmostDone), at, [ChunkComplete], Between(m), at + 2)
  {
    var m0 := InChunk(m, 0).(state := ChunkDataAlmostDone);
    var m1 := m0.(state := ChunkDataDone);
    OneStep(cfg, head, s, m0, at, Stepped(m1, []));
    OneStep(cfg, head, s, m1, at + 1, Stepped(Between(m), [ChunkComplete]));
    Chain(cfg, head, s, m0, at, [], m1, at + 1, [ChunkComplete], Between(m), at + 2);
  }

  lemma ChunkOccurs(s: seq<byte>, at: nat, c: Chunk)
    requires Occurs(s, at, EncodeChunk(c))
    ensures Occurs(s, at, c.size) && Occurs(s, at + |c.size|, [CR, LF])
    ensures Occurs(s, at + |c.size| + 2, c.data) && Occurs(s, at + |c.size| + 2 + |c.data|, [CR, LF])
  {
    OccursSplit(s, at, c.size + [CR, LF] + c.data, [CR, LF]);
    OccursSplit(s, at, c.size + [CR, LF], c.data);
    OccursSplit(s, at, c.size, [CR, LF]);
  }

  /** The chunk fits the header limit and the size limit. */
  predicate Fits(cfg: Config, c: Chunk) { |c.size| + 2 <= cfg.maxHeader && |c.data| <= MaxSize }

  lemma HeadRuns(cfg: Config, head: Head, m: Machine, s: seq<byte>, at: nat, c: Chunk)
    requires m.state.ChunkSizeStart? && m.nread == 0 && WellFormed(c) && Fits(cfg, c) && Occurs(s, at, EncodeChunk(c))
    ensures Goes(cfg, head, s, m, at, [ChunkHeader(|c.data|)], InChunk(m, |c.data|), at + |c.size| + 2)
  {
    var n, k := |c.data|, |c.size|;
    ChunkOccurs(s, at, c);
    SizeRuns(cfg, head, m, s, at, c.size, n);
    assert s[at + k] == [CR, LF][0] && s[at + k + 1] == [CR, LF][1];
    LineEndRuns(cfg, head, m, s, at + k, n, k);
    Chain(cfg, head, s, m, at, [], InSize(m, n, k), at + k, [ChunkHeader(n)], InChunk(m, n), at + k + 2);
  }

  lemma TailRuns(cfg: Config, head: Head, m: Machine, s: seq<byte>, at: nat, data: seq<byte>)
    requires data != [] && Occurs(s, at, data) && Occurs(s, at + |data|, [CR, LF])
    ensures Goes(cfg, head, s, InChunk(m, |data|), at, Bodies(data, 0, |data|) + [ChunkComplete], Between(m),
            at + |data| + 2)
  {
    var end := at + |data|;
    assert s[end] == [CR, LF][0] && s[end + 1] == [CR, LF][1];
    DataRuns(cfg, head, m, s, at, data);
    DataEndRuns(cfg, head, m, s, end);
    Chain(cfg, head, s, InChunk(m, |data|), at, Bodies(data, 0, |data|),
        InChunk(m, 0).(state := ChunkDataAlmostDone), end,
          [ChunkComplete], Between(m), end + 2);
  }

  /** One chunk: its header, its data and its end are reported, and the next chunk may start. */
  lemma ChunkRuns(cfg: Config, head: Head, m: Machine, s: seq<byte>, at: nat, c: Chunk)
    requires m.state.ChunkSizeStart? && m.nread == 0 && WellFormed(c) && Fits(cfg, c) && Occurs(s, at, EncodeChunk(c))
    ensures Goes(cfg, head, s, m, at, ChunkEvents(c), Between(m), at + |EncodeChunk(c)|)
  {
    var at' := at + |c.size| + 2;
    ChunkOccurs(s, at, c);
    HeadRuns(cfg, head, m, s, at, c);
    TailRuns(cfg, head, m, s, at', c.data);
    Chain(cfg, head, s, m, at, [ChunkHeader(|c.data|)], InChunk(m, |c.data|), at',
          Bodies(c.data, 0, |c.data|) + [ChunkComplete], Between(m), at' + |c.data| + 2);
    assert [ChunkHeader(|c.data|)] + (Bodies(c.data, 0, |c.data|) + [ChunkComplete]) == ChunkEvents(c);
  }

  // ---- Whole messages --------------------------------------------------------------------

  const LastChunk: seq<byte> := ['0' as int] + [CR, LF, CR, LF]

  function Encode(chunks: seq<Chunk>): seq<byte> {
    if chunks == [] then LastChunk else EncodeChunk(chunks[0]) + Encode(chunks[1..])
  }

  function AllEvents(chunks: seq<Chunk>): seq<Event> {
    if chunks == [] then [ChunkHeader(0), ChunkComplete, MessageComplete]
        else ChunkEvents(chunks[0]) + AllEvents(chunks[1..])
  }

  /** How the message ends. */
  function Ended(cfg: Config, head: Head, m: Machine): Machine {
    Finish(cfg, head, m.(trailing := true, length := 0, nread := 2), []).m
  }

  /** The machine in front of the trailers. */
  function AtTrailers(m: Machine): Machine { m.(state := HeaderFieldStart, trailing := true, length := 0, nread := 0) }

  lemma ZeroLineEnds(cfg: Config, head: Head, m: Machine, s: seq<byte>, at: nat, v: nat, r: nat)
    requires v == 0 && r + 2 <= cfg.maxHeader && at + 2 <= |s| && s[at] == CR && s[at + 1] == LF
    ensures Goes(cfg, head, s, InSize(m, v, r), at, [ChunkHeader(0)], AtTrailers(m), at + 2)
  {
    var m0 := InSize(m, v, r);
    var m1 := m0.(state := ChunkSizeAlmostDone, nread := r + 1);
    OneStep(cfg, head, s, m0, at, Stepped(m1, []));
    OneStep(cfg, head, s, m1, at + 1, Stepped(AtTrailers(m), [ChunkHeader(0)]));
    Chain(cfg, head, s, m0, at, [], m1, at + 1, [ChunkHeader(0)], AtTrailers(m), at + 2);
  }

  lemma TrailersEnd(cfg: Config, head: Head, m: Machine, s: seq<byte>, at: nat)
    requires cfg.maxHeader >= 2 && at + 2 <= |s| && s[at] == CR && s[at + 1] == LF
    ensures Run(cfg, head, AtTrailers(m), s, at) == Outcome(Ended(cfg, head, m), [ChunkComplete, MessageComplete],
            at + 2)
  {
    var m3 := AtTrailers(m);
    var m4 := m3.(state := HeadersAlmostDone, nread := 1);
    var done := [ChunkComplete, MessageComplete];
    OneStep(cfg, head, s, m3, at, Stepped(m4, []));
    OneStep(cfg, head, s, m4, at + 1, Stepped(Ended(cfg, head, m), done));
    Chain(cfg, head, s, m3, at, [], m4, at + 1, done, Ended(cfg, head, m), at + 2);
    GoesToEnd(cfg, head, s, m3, at, [] + done, Ended(cfg, head, m), at + 2);
  }

  lemma GoesToEnd(cfg: Config, head: Head, s: seq<byte>, m: Machine, at: nat, events: seq<Event>, m': Machine, at': nat)
    requires Goes(cfg, head, s, m, at, events, m', at') && Stopped(m'.state)
    ensures Run(cfg, head, m, s, at) == Outcome(m', events, at')
  {
    assert events + [] == events;
  }

  lemma ZeroLineRuns(cfg: Config, head: Head, m: Machine, s: seq<byte>, at: nat, size: seq<byte>, mid: nat)
    requires m.state.ChunkSizeStart? && m.nread == 0 && Occurs(s, at, size) && mid == at + |size| + 2 <= |s|
    requires s[mid - 2] == CR && s[mid - 1] == LF
    requires IsHex(size) && HexFrom(0, size, 0, |size|) == 0 && |size| + 2 <= cfg.maxHeader
    ensures Goes(cfg, head, s, m, at, [ChunkHeader(0)], AtTrailers(m), mid)
  {
    var k, v := |size|, HexFrom(0, size, 0, |size|);
    SizeRuns(cfg, head, m, s, at, size, v);
    ZeroLineEnds(cfg, head, m, s, at + k, v, k);
    Chain(cfg, head, s, m, at, [], InSize(m, v, k), at + k, [ChunkHeader(0)], AtTrailers(m), mid);
  }

  lemma LastOccurs(s: seq<byte>, at: nat, size: seq<byte>, mid: nat)
    requires Occurs(s, at, size + [CR, LF, CR, LF]) && mid == at + |size| + 2
    ensures Occurs(s, at, size) && mid + 2 <= |s| && s[mid - 2] == CR && s[mid - 1] == LF && s[mid] == CR
            && s[mid + 1] == LF
  {
    var e := [CR, LF, CR, LF];
    OccursSplit(s, at, size, e);
    assert s[mid - 2] == e[0] && s[mid - 1] == e[1] && s[mid] == e[2] && s[mid + 1] == e[3];
  }

  /** A size of value zero, however it is written, and no trailers: the message ends. */
  lemma LastRuns(cfg: Config, head: Head, m: Machine, s: seq<byte>, at: nat, size: seq<byte>, end: nat)
    requires m.state.ChunkSizeStart? && m.nread == 0 && Occurs(s, at, size + [CR, LF, CR, LF]) && end == at + |size| + 4
    requires IsHex(size) && HexFrom(0, size, 0, |size|) == 0 && |size| + 2 <= cfg.maxHeader
    ensures Run(cfg, head, m, s, at) == Outcome(Ended(cfg, head, m), AllEvents([]), end)
  {
    LastOccurs(s, at, size, end - 2);
    ZeroLineRuns(cfg, head, m, s, at, size, end - 2);
    TrailersEnd(cfg, head, m, s, end - 2);
  }

  lemma {:induction false} MessageRuns(cfg: Config, head: Head, m: Machine, s: seq<byte>, at: nat, chunks: seq<Chunk>)
    requires m.state.ChunkSizeStart? && m.nread == 0 && cfg.maxHeader >= 3
    requires forall i :: 0 <= i < |chunks| ==> WellFormed(chunks[i]) && Fits(cfg, chunks[i])
    requires Occurs(s, at, Encode(chunks))
    ensures Run(cfg, head, m, s, at) == Outcome(Ended(cfg, head, m), AllEvents(chunks), at + |Encode(chunks)|)
    decreases |chunks|
  {
    if chunks == [] {
      assert HexFrom(0, ['0' as int], 1, 1) == 0;
      LastRuns(cfg, head, m, s, at, ['0' as int], at + 5);
    } else {
      OccursSplit(s, at, EncodeChunk(chunks[0]), Encode(chunks[1..]));
      ChunkRuns(cfg, head, m, s, at, chunks[0]);
      MessageRuns(cfg, head, Between(m), s, at + |EncodeChunk(chunks[0])|, chunks[1..]);
    }
  }

  /** The data bytes among the reports. */
  function DataOf(events: seq<Event>): seq<byte> {
    if events == [] then [] else
    var last := events[|events| - 1];
    DataOf(events[..|events| - 1]) + if last.Body? then [last.b] else []
  }

  /** How often the end of a message is among them. */
  function Completions(events: seq<Event>): nat {
    if events == [] then 0 else
    Completions(events[..|events| - 1]) + if events[|events| - 1].MessageComplete? then 1 else 0
  }

  function Concat(chunks: seq<Chunk>): seq<byte> {
    if chunks == [] then [] else chunks[0].data + Concat(chunks[1..])
  }

  lemma {:induction false} DataOfAppend(a: seq<Event>, b: seq<Event>)
    ensures DataOf(a + b) == DataOf(a) + DataOf(b)
    decreases |b|
  {
    if b == [] {
      assert a + b == a;
    } else {
      var b' := b[..|b| - 1];
      DataOfAppend(a, b');
      assert (a + b)[..|a + b| - 1] == a + b';
      assert (a + b)[|a + b| - 1] == b[|b| - 1];
    }
  }

  lemma {:induction false} CompletionsAppend(a: seq<Event>, b: seq<Event>)
    ensures Completions(a + b) == Completions(a) + Completions(b)
    decreases |b|
  {
    if b == [] {
      assert a + b == a;
    } else {
      CompletionsAppend(a, b[..|b| - 1]);
      assert (a + b)[..|a + b| - 1] == a + b[..|b| - 1];
    }
  }

  lemma {:induction false} DataOfBodies(s: seq<byte>, hi: nat)
    requires hi <= |s|
    ensures DataOf(Bodies(s, 0, hi)) == s[..hi] && Completions(Bodies(s, 0, hi)) == 0
  {
    if hi > 0 {
      DataOfBodies(s, hi - 1);
      assert Bodies(s, 0, hi)[..hi - 1] == Bodies(s, 0, hi - 1);
    }
  }

  lemma DataOfChunk(c: Chunk)
    ensures DataOf(ChunkEvents(c)) == c.data && Completions(ChunkEvents(c)) == 0
  {
    var h, b, e := [ChunkHeader(|c.data|)], Bodies(c.data, 0, |c.data|), [ChunkComplete];
    DataOfOne(ChunkHeader(|c.data|));
    DataOfOne(ChunkComplete);
    DataOfAppend(h + b, e);
    DataOfAppend(h, b);
    CompletionsAppend(h + b, e);
    CompletionsAppend(h, b);
    DataOfBodies(c.data, |c.data|);
  }

  lemma DataOfOne(e: Event)
    requires !e.Body?
    ensures DataOf([e]) == [] && Completions([e]) == if e.MessageComplete? then 1 else 0
  {
    assert [e][..0] == [];
  }

  lemma DataOfEnd()
    ensures DataOf(AllEvents([])) == [] && Completions(AllEvents([])) == 1
  {
    var a, b, c := [ChunkHeader(0)], [ChunkComplete], [MessageComplete];
    assert AllEvents([]) == (a + b) + c;
    DataOfOne(ChunkHeader(0));
    DataOfOne(ChunkComplete);
    DataOfOne(MessageComplete);
    DataOfAppend(a, b);
    DataOfAppend(a + b, c);
    CompletionsAppend(a, b);
    CompletionsAppend(a + b, c);
  }

  lemma {:induction false} DataOfAll(chunks: seq<Chunk>)
    ensures DataOf(AllEvents(chunks)) == Concat(chunks) && Completions(AllEvents(chunks)) == 1
    decreases |chunks|
  {
    if chunks == [] {
      DataOfEnd();
    } else {
      DataOfAppend(ChunkEvents(chunks[0]), AllEvents(chunks[1..]));
      CompletionsAppend(ChunkEvents(chunks[0]), AllEvents(chunks[1..]));
      DataOfChunk(chunks[0]);
      DataOfAll(chunks[1..]);
    }
  }

  /**
   Chunked round trip: what any encoder makes of a list of non-empty chunks is taken whole, its
   data delivered in order and its end reported once; the connection is then dead exactly in strict
   mode without keep-alive.
   */
  lemma ChunkedRoundTrip(cfg: Config, head: Head, m: Machine, chunks: seq<Chunk>)
    requires m.state.ChunkSizeStart? && Inv(cfg, head, m) && cfg.maxHeader >= 3
    requires forall i :: 0 <= i < |chunks| ==> WellFormed(chunks[i]) && Fits(cfg, chunks[i])
    ensures var r := Run(cfg, head, m, Encode(chunks), 0);
            && r.m.state == NewMessage(cfg.strict && !head.persistent) && r.end == |Encode(chunks)|
            && DataOf(r.events) == Concat(chunks) && Completions(r.events) == 1
  {
    MessageRuns(cfg, head, m, Encode(chunks), 0, chunks);
    DataOfAll(chunks);
  }

  // ---- Bodies of known length ------------------------------------------------------------

  /** A message whose headers gave a length and ask for nothing else, right before the last byte of the headers. */
  predicate PlainHead(cfg: Config, head: Head, m: Machine) {
    && m.state.HeadersAlmostDone? && !m.trailing && !m.skipBody && m.nread < cfg.maxHeader && cfg.onHeadersComplete == 0
    && !head.chunked && head.lengthGiven && !head.upgradeAsked && !head.connect && m.length < Unset
  }

  lemma HeadersEnd(cfg: Config, head: Head, m: Machine)
    requires PlainHead(cfg, head, m)
    ensures var done := m.(nread := 0, upgrade := false);
            Step(cfg, head, m, LF) == if m.length == 0 then Finish(cfg, head, done, [HeadersComplete])
                else Stepped(done.(state := BodyIdentity), [HeadersComplete])
  {
  }

  lemma BodyRuns(cfg: Config, head: Head, m: Machine, body: seq<byte>)
    requires m.state.BodyIdentity? && 0 < m.length == |body|
    ensures var r := Run(cfg, head, m, [LF] + body, 1);
            r.m.state == NewMessage(cfg.strict && !head.persistent) && r.end == |body| + 1
                && r.events == Bodies(body, 0, |body|) + [MessageComplete]
  {
    var s := [LF] + body;
    LastJump(cfg, head, m, s, 1, []);
    AfterNothing(Run(cfg, head, m, s, 1));
    assert Bodies(s, 1, 1 + |body|) == Bodies(body, 0, |body|);
    assert [] + (Bodies(body, 0, |body|) + [MessageComplete]) == Bodies(body, 0, |body|) + [MessageComplete];
  }

  lemma DataOfBody(body: seq<byte>)
    ensures var e := [HeadersComplete] + (Bodies(body, 0, |body|) + [MessageComplete]);
            DataOf(e) == body && Completions(e) == 1
  {
    var h, b, e := [HeadersComplete], Bodies(body, 0, |body|), [MessageComplete];
    DataOfOne(HeadersComplete);
    DataOfOne(MessageComplete);
    DataOfAppend(h, b + e);
    DataOfAppend(b, e);
    CompletionsAppend(h, b + e);
    CompletionsAppend(b, e);
    DataOfBodies(body, |body|);
  }

  /** A body of the announced length is delivered whole, the message completed once, and no byte more is taken. */
  lemma IdentityRoundTrip(cfg: Config, head: Head, m: Machine, body: seq<byte>)
    requires PlainHead(cfg, head, m) && m.length == |body|
    ensures var r := Run(cfg, head, m, [LF] + body, 0);
            r.m.state == NewMessage(cfg.strict && !head.persistent) && r.end == |body| + 1
                && DataOf(r.events) == body && Completions(r.events) == 1
  {
    var s := [LF] + body;
    HeadersEnd(cfg, head, m);
    OneMore(cfg, head, m, s, 0, [], Step(cfg, head, m, LF));
    AfterNothing(Run(cfg, head, m, s, 0));
    DataOfBody(body);
    if body != [] {
      BodyRuns(cfg, head, m.(nread := 0, upgrade := false, state := BodyIdentity), body);
    } else {
      assert Bodies(body, 0, 0) == [] && [HeadersComplete] + ([] + [MessageComplete])
          == [HeadersComplete] + [MessageComplete];
    }
  }

  // ---- Bodies that end with the connection -----------------------------------------------

  /** Some bytes bring the message to its end. */
  ghost predicate Completable(cfg: Config, head: Head, m: Machine) {
    exists s :: Run(cfg, head, m, s, 0).m.state.NewMessage?
  }

  lemma ChunksComplete(cfg: Config, head: Head, m: Machine)
    requires m.state.ChunkSizeStart? && m.nread == 0 && cfg.maxHeader >= 3
    ensures Completable(cfg, head, m)
  {
    MessageRuns(cfg, head, m, Encode([]), 0, []);
  }

  lemma LengthCompletes(cfg: Config, head: Head, m: Machine)
    requires m.state.BodyIdentity? && 0 < m.length
    ensures Completable(cfg, head, m)
  {
    var s: seq<byte> := seq(m.length, i => 0);
    LastJump(cfg, head, m, s, 0, []);
    assert Run(cfg, head, m, s, 0).m.state.NewMessage?;
  }

  lemma FinishedCompletes(cfg: Config, head: Head, m: Machine)
    requires m.state.NewMessage?
    ensures Completable(cfg, head, m)
  {
    assert Run(cfg, head, m, [], 0).m == m;
  }

  lemma EofNeverCompletes(cfg: Config, head: Head, m: Machine)
    requires m.state.BodyIdentityEof?
    ensures forall s :: Run(cfg, head, m, s, 0) == Outcome(m, Bodies(s, 0, |s|), |s|)
    ensures !Completable(cfg, head, m)
  {
    forall s
      ensures Run(cfg, head, m, s, 0) == Outcome(m, Bodies(s, 0, |s|), |s|)
    {
      EofIsSteps(cfg, head, m, s, 0);
    }
  }

  /**
   The end of the headers leaves a message that has no end of its own exactly when it needs the end
   of the connection.
   */
  lemma HeadersLeave(cfg: Config, head: Head, m: Machine, ch: byte)
    requires (cfg.strict ==> ch == LF) && m.length <= Unset
    ensures var n := HeadersDone(cfg, head, m, ch).m;
            && (NeedsEof(head, m) && !m.upgrade ==> n.state.BodyIdentityEof?)
            && (!NeedsEof(head, m) || m.upgrade ==>
                  n.state.NewMessage? || (n.state.ChunkSizeStart? && n.nread == 0 && head.chunked)
                      || (n.state.BodyIdentity? && 0 < n.length))
  {
  }

  /**
   What http_message_needs_eof decides: after the headers, no bytes whatever complete the message exactly
   when it needs the end of the connection and nothing was upgraded; then every byte is delivered as data.
   */
  lemma NeedsEofMeans(cfg: Config, head: Head, m: Machine, ch: byte)
    requires (cfg.strict ==> ch == LF) && m.length <= Unset && (head.chunked ==> cfg.maxHeader >= 3)
    ensures var n := HeadersDone(cfg, head, m, ch).m;
            && (Completable(cfg, head, n) <==> !NeedsEof(head, m) || m.upgrade)
            && (!Completable(cfg, head, n) ==>
                  n.state.BodyIdentityEof? && forall s :: Run(cfg, head, n, s, 0) == Outcome(n, Bodies(s, 0, |s|), |s|))
  {
    var n := HeadersDone(cfg, head, m, ch).m;
    HeadersLeave(cfg, head, m, ch);
    if NeedsEof(head, m) && !m.upgrade {
      EofNeverCompletes(cfg, head, n);
    } else if n.state.NewMessage? {
      FinishedCompletes(cfg, head, n);
    } else if n.state.ChunkSizeStart? {
      ChunksComplete(cfg, head, n);
    } else {
      LengthCompletes(cfg, head, n);
    }
  }

  // ---- What counts as a digit ------------------------------------------------------------

  /**
   A byte is accepted in a chunk size exactly when it is a hexadecimal digit or above 127, where it
   counts as zero.
   */
  lemma DigitsAre(c: byte)
    ensures Unhex(c) != -1 <==> IsHexDigit(c) || c >= 128
    ensures c >= 128 ==> Unhex(c) == 0
  {
  }

  /** So a line with nothing but a byte above 127 ends the message. */
  lemma NonAsciiEndsMessage(cfg: Config, head: Head, m: Machine, c: byte)
    requires m.state.ChunkSizeStart? && Inv(cfg, head, m) && cfg.maxHeader >= 3 && c >= 128
    ensures Run(cfg, head, m, [c, CR, LF, CR, LF], 0) == Outcome(Ended(cfg, head, m), AllEvents([]), 5)
  {
    assert [c] + [CR, LF, CR, LF] == [c, CR, LF, CR, LF];
    assert HexFrom(0, [c], 1, 1) == 0;
    LastRuns(cfg, head, m, [c, CR, LF, CR, LF], 0, [c], 5);
  }

  // ---- Canonical sizes -------------------------------------------------------------------

  function Hex(n: nat): (s: seq<byte>)
    ensures IsHex(s)
  {
    if n < 16 then [HexDigit(n)] else Hex(n / 16) + [HexDigit(n % 16)]
  }

  lemma {:induction false} HexFromLast(v: nat, s: seq<byte>, lo: nat, c: byte)
    requires lo <= |s| && (forall i :: lo <= i < |s| ==> Unhex(s[i]) != -1) && Unhex(c) != -1
    ensures forall i :: lo <= i < |s| + 1 ==> Unhex((s + [c])[i]) != -1
    ensures HexFrom(v, s + [c], lo, |s| + 1) == HexFrom(v, s, lo, |s|) * 16 + Unhex(c)
    decreases |s| - lo
  {
    if lo < |s| { HexFromLast(v * 16 + Unhex(s[lo]), s, lo + 1, c); }
  }

  lemma {:induction false} HexInverts(n: nat)
    ensures HexFrom(0, Hex(n), 0, |Hex(n)|) == n
  {
    if n >= 16 {
      HexInverts(n / 16);
      HexFromLast(0, Hex(n / 16), 0, HexDigit(n % 16));
    }
  }

  lemma {:induction false} HexShort(n: nat, k: nat, bound: nat)
    requires n < bound && k >= 1 && bound == Pow16(k)
    ensures |Hex(n)| <= k
    decreases k
  {
    if n >= 16 { HexShort(n / 16, k - 1, Pow16(k - 1)); }
  }

  function Pow16(k: nat): nat { if k == 0 then 1 else 16 * Pow16(k - 1) }

  /** Sizes written in the usual way fit every header limit from 18 bytes on. */
  lemma CanonicalFits(cfg: Config, data: seq<byte>)
    requires data != [] && cfg.maxHeader >= 18
    ensures WellFormed(Chunk(Hex(|data|), data))
    ensures Fits(cfg, Chunk(Hex(|data|), data)) <==> |data| <= MaxSize
  {
    HexInverts(|data|);
    if |data| <= MaxSize {
      assert Pow16(4) == 0x10000 && Pow16(8) == 0x1_0000_0000 && Pow16(12) == 0x1_0000_0000_0000;
      HexShort(|data|, 16, Pow16(16));
    }
  }

  // ---- Content-Length --------------------------------------------------------------------

  const MaxLength := Unset - 6

  /** A Content-Length value: `n` digits, then spaces. */
  ghost predicate Digits(s: seq<byte>, n: nat) {
    1 <= n <= |s| && (forall i :: 0 <= i < n ==> IsNum(s[i])) && (forall i :: n <= i < |s| ==> s[i] == ' ' as int)
  }

  /** One more decimal digit: counted in full, or refused. */
  function AddDigit(t: nat, d: nat): (r: Option<nat>)
    requires d < 10
    ensures r == if t * 10 + d <= MaxLength then Some(t * 10 + d) else None
  {
    if (Unset - 10) / 10 < t then None else Some((t * 10 + d) % 0x1_0000_0000_0000_0000)
  }

  /** The value characters of a Content-Length field, with the 64-bit accumulator written out. */
  method ContentLength(s: seq<byte>) returns (r: Option<nat>, ghost n: nat)
    ensures r.Some? ==> Digits(s, n) && r.value == Number(s, 0, n) <= MaxLength
    ensures r.None? ==> forall k :: Digits(s, k) ==> Number(s, 0, k) > MaxLength
  {
    n := 0;
    if |s| == 0 || !IsNum(s[0]) { return None, 0; }
    var t: nat := s[0] - '0' as int;
    var i, ws := 1, false;
    n := 1;
    while i < |s|
      invariant 1 <= n <= i <= |s| && (ws || n == i)
      invariant forall j :: 0 <= j < n ==> IsNum(s[j])
      invariant forall j :: n <= j < i ==> s[j] == ' ' as int
      invariant ws ==> n < i
      invariant t == Number(s, 0, n) <= MaxLength
    {
      if s[i] == ' ' as int {
        ws := true;
      } else if ws || !IsNum(s[i]) {
        ghost var j := if ws then n else i;
        assert !IsNum(s[j]) && forall k :: Digits(s, k) ==> j < k;
        return None, 0;
      } else {
        var more := AddDigit(t, s[i] - '0' as int);
        if more.None? {
          forall k | Digits(s, k)
            ensures Number(s, 0, k) > MaxLength
          {
            NumberGrows(s, 0, i + 1, k);
          }
          return None, 0;
        }
        t := more.value;
        n := i + 1;
      }
      i := i + 1;
    }
    r := Some(t);
  }
}
