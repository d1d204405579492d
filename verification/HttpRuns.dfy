/** Whole runs of the body machine: cutting the input anywhere, and jumping over data, change nothing. */
module HttpRuns {
  import opened Bytes
  import opened HttpBody

  // ---- Splitting -------------------------------------------------------------------------

  /** A run does not look at what lies before it. */
  lemma {:induction false} RunShift(cfg: Config, head: Head, m: Machine, a: seq<byte>, b: seq<byte>, at: nat)
    requires at <= |b|
    ensures var r := Run(cfg, head, m, b, at); Run(cfg, head, m, a + b, |a| + at) == r.(end := |a| + r.end)
    decreases |b| - at
  {
    if at < |b| && !Stopped(m.state) {
      var n := Step(cfg, head, m, b[at]);
      assert (a + b)[|a| + at] == b[at];
      if !Refused(n.m.state) { RunShift(cfg, head, n.m, a, b, at + 1); }
    }
  }

  lemma AfterAfter(x: seq<Event>, y: seq<Event>, r: Outcome)
    ensures After(x, After(y, r)) == After(x + y, r)
  {
    assert x + (y + r.events) == x + y + r.events;
  }

  /** The run over `a + b` is the run over `a`, continued over `b` unless it stopped. */
  lemma {:induction false} RunSplit(cfg: Config, head: Head, m: Machine, a: seq<byte>, b: seq<byte>, at: nat)
    requires at <= |a|
    ensures var r := Run(cfg, head, m, a, at);
            Run(cfg, head, m, a + b, at) == if Stopped(r.m.state) then r
                else After(r.events, Run(cfg, head, r.m, a + b, |a|))
    decreases |a| - at
  {
    var r := Run(cfg, head, m, a, at);
    if at < |a| && !Stopped(m.state) {
      var n := Step(cfg, head, m, a[at]);
      assert (a + b)[at] == a[at];
      if !Refused(n.m.state) {
        RunSplit(cfg, head, n.m, a, b, at + 1);
        AfterAfter(n.events, Run(cfg, head, n.m, a, at + 1).events, Run(cfg, head, r.m, a + b, |a|));
      }
    } else if !Stopped(m.state) {
      var rest := Run(cfg, head, m, a + b, |a|);
      assert [] + rest.events == rest.events;
    }
  }

  function Joined(pieces: seq<seq<byte>>): seq<byte> {
    if pieces == [] then [] else pieces[0] + Joined(pieces[1..])
  }

  /** Feeding piece after piece until the machine stops; `end` counts the bytes taken in all. */
  function RunPieces(cfg: Config, head: Head, m: Machine, pieces: seq<seq<byte>>): (r: Outcome)
    decreases |pieces|
  {
    if pieces == [] then Outcome(m, [], 0) else
    var r := Run(cfg, head, m, pieces[0], 0);
    if Stopped(r.m.state) then r else
    var rest := RunPieces(cfg, head, r.m, pieces[1..]);
    Outcome(rest.m, r.events + rest.events, |pieces[0]| + rest.end)
  }

  /** Split invariance: any cutting of the bytes gives the same reports, the same state and the same end. */
  lemma {:induction false} SplitInvariance(cfg: Config, head: Head, m: Machine, pieces: seq<seq<byte>>)
    ensures RunPieces(cfg, head, m, pieces) == Run(cfg, head, m, Joined(pieces), 0)
    decreases |pieces|
  {
    if pieces != [] {
      var a, b := pieces[0], Joined(pieces[1..]);
      var r := Run(cfg, head, m, a, 0);
      RunSplit(cfg, head, m, a, b, 0);
      if !Stopped(r.m.state) {
        SplitInvariance(cfg, head, r.m, pieces[1..]);
        RunShift(cfg, head, r.m, a, b, 0);
      }
    }
  }

  // ---- Bulk jumps ------------------------------------------------------------------------

  /** The data bytes from `lo` to `hi`, reported one by one. */
  function Bodies(s: seq<byte>, lo: nat, hi: nat): (e: seq<Event>)
    requires lo <= hi <= |s|
    ensures |e| == hi - lo && forall i :: 0 <= i < |e| ==> e[i] == Body(s[lo + i])
  {
    seq(hi - lo, i requires 0 <= i < hi - lo => Body(s[lo + i]))
  }

  lemma BodiesMore(s: seq<byte>, lo: nat, mid: nat, hi: nat)
    requires lo <= mid <= hi <= |s|
    ensures Bodies(s, lo, mid) + Bodies(s, mid, hi) == Bodies(s, lo, hi)
  {
  }

  /** The machine after `k` data bytes, its message or chunk not yet over. */
  function Skipped(m: Machine, k: nat): Machine
    requires k <= m.length
  {
    m.(length := m.length - k)
  }

  predicate InData(m: Machine) { m.state.ChunkData? || m.state.BodyIdentity? }

  lemma DataStep(cfg: Config, head: Head, m: Machine, ch: byte)
    requires InData(m) && m.length > 1
    ensures Step(cfg, head, m, ch) == Stepped(Skipped(m, 1), [Body(ch)])
  {
  }

  lemma DataRun(cfg: Config, head: Head, m: Machine, s: seq<byte>, at: nat)
    requires InData(m) && m.length > 1 && at < |s|
    ensures Run(cfg, head, m, s, at) == After(Bodies(s, at, at + 1), Run(cfg, head, Skipped(m, 1), s, at + 1))
  {
    DataStep(cfg, head, m, s[at]);
    assert Bodies(s, at, at + 1) == [Body(s[at])];
  }

  lemma JoinBodies(s: seq<byte>, lo: nat, mid: nat, hi: nat, r: Outcome)
    requires lo <= mid <= hi <= |s|
    ensures After(Bodies(s, lo, mid), After(Bodies(s, mid, hi), r)) == After(Bodies(s, lo, hi), r)
  {
    BodiesMore(s, lo, mid, hi);
    AfterAfter(Bodies(s, lo, mid), Bodies(s, mid, hi), r);
  }

  /** A jump over `k` bytes that leaves some of the body is `k` single steps. */
  lemma {:induction false} JumpIsSteps(cfg: Config, head: Head, m: Machine, s: seq<byte>, at: nat, k: nat)
    requires InData(m) && k < m.length && at + k <= |s|
    ensures Run(cfg, head, m, s, at) == After(Bodies(s, at, at + k), Run(cfg, head, Skipped(m, k), s, at + k))
    decreases k
  {
    if k == 0 {
      AfterNothing(Run(cfg, head, m, s, at));
    } else {
      DataRun(cfg, head, m, s, at);
      JumpIsSteps(cfg, head, Skipped(m, 1), s, at + 1, k - 1);
      JoinBodies(s, at, at + 1, at + k, Run(cfg, head, Skipped(m, k), s, at + k));
    }
  }

  lemma AfterNothing(r: Outcome)
    ensures After([], r) == r
  {
  }

  lemma {:induction false} EofIsSteps(cfg: Config, head: Head, m: Machine, s: seq<byte>, at: nat)
    requires m.state.BodyIdentityEof? && at <= |s|
    ensures Run(cfg, head, m, s, at) == Outcome(m, Bodies(s, at, |s|), |s|)
    decreases |s| - at
  {
    if at < |s| {
      EofIsSteps(cfg, head, m, s, at + 1);
      assert Step(cfg, head, m, s[at]) == Stepped(m, [Body(s[at])]);
      BodiesMore(s, at, at + 1, |s|);
      assert Bodies(s, at, at + 1) == [Body(s[at])];
    }
  }

  /** Going one byte on in a run of which `seen` was reported. */
  lemma OneMore(cfg: Config, head: Head, m: Machine, s: seq<byte>, at: nat, seen: seq<Event>, n: Stepped)
    requires at < |s| && !Stopped(m.state) && n == Step(cfg, head, m, s[at])
    ensures After(seen, Run(cfg, head, m, s, at)) ==
            if Refused(n.m.state) then Outcome(n.m, seen + n.events, at)
                else After(seen + n.events, Run(cfg, head, n.m, s, at + 1))
  {
    if !Refused(n.m.state) { AfterAfter(seen, n.events, Run(cfg, head, n.m, s, at + 1)); }
  }

  /** Where a jump over `k` bytes of chunk data leads. */
  function Jumped(m: Machine, k: nat): Machine
    requires m.state.ChunkData? && k <= m.length
  {
    if k < m.length then Skipped(m, k) else m.(length := 0, state := ChunkDataAlmostDone)
  }

  /** The last byte of a chunk. */
  lemma ChunkEnds(cfg: Config, head: Head, m: Machine, s: seq<byte>, last: nat)
    requires m.state.ChunkData? && m.length == 1 && last < |s|
    ensures Run(cfg, head, m, s, last) == After(Bodies(s, last, last + 1), Run(cfg, head, Jumped(m, 1), s, last + 1))
  {
    assert Step(cfg, head, m, s[last]) == Stepped(Jumped(m, 1), [Body(s[last])]);
    assert Bodies(s, last, last + 1) == [Body(s[last])];
  }

  lemma ChunkJumpIs(cfg: Config, head: Head, m: Machine, s: seq<byte>, at: nat, k: nat)
    requires m.state.ChunkData? && 0 < k <= m.length && at + k <= |s|
    ensures Run(cfg, head, m, s, at) == After(Bodies(s, at, at + k), Run(cfg, head, Jumped(m, k), s, at + k))
  {
    if k < m.length {
      JumpIsSteps(cfg, head, m, s, at, k);
    } else {
      JumpIsSteps(cfg, head, m, s, at, k - 1);
      ChunkEnds(cfg, head, Skipped(m, k - 1), s, at + k - 1);
      JoinBodies(s, at, at + k - 1, at + k, Run(cfg, head, Jumped(m, k), s, at + k));
    }
  }

  lemma ChunkJump(cfg: Config, head: Head, m: Machine, s: seq<byte>, at: nat, k: nat, seen: seq<Event>)
    requires m.state.ChunkData? && 0 < k <= m.length && at + k <= |s|
    ensures After(seen, Run(cfg, head, m, s, at))
            == After(seen + Bodies(s, at, at + k), Run(cfg, head, Jumped(m, k), s, at + k))
  {
    ChunkJumpIs(cfg, head, m, s, at, k);
    AfterAfter(seen, Bodies(s, at, at + k), Run(cfg, head, Jumped(m, k), s, at + k));
  }

  /** A jump over all that is left of an identity body ends the message. */
  lemma LastJump(cfg: Config, head: Head, m: Machine, s: seq<byte>, at: nat, seen: seq<Event>)
    requires m.state.BodyIdentity? && 0 < m.length && at + m.length <= |s|
    ensures var n := Finish(cfg, head, m.(length := 0), Bodies(s, at, at + m.length));
            After(seen, Run(cfg, head, m, s, at)) == Outcome(n.m, seen + n.events, at + m.length)
  {
    var last := at + m.length - 1;
    JumpIsSteps(cfg, head, m, s, at, m.length - 1);
    LastByte(cfg, head, Skipped(m, m.length - 1), s, last);
    EndOfBody(s, at, last);
  }

  /** The last byte of an identity body. */
  lemma LastByte(cfg: Config, head: Head, m: Machine, s: seq<byte>, last: nat)
    requires m.state.BodyIdentity? && m.length == 1 && last < |s|
    ensures var n := Finish(cfg, head, m.(length := 0), Bodies(s, last, last + 1));
            Run(cfg, head, m, s, last) == Outcome(n.m, n.events, last + 1)
  {
    var n := Finish(cfg, head, m.(length := 0), Bodies(s, last, last + 1));
    assert Bodies(s, last, last + 1) == [Body(s[last])];
    assert Step(cfg, head, m, s[last]) == n;
  }

  lemma EndOfBody(s: seq<byte>, at: nat, last: nat)
    requires at <= last < |s|
    ensures Bodies(s, at, last) + (Bodies(s, last, last + 1) + [MessageComplete])
            == Bodies(s, at, last + 1) + [MessageComplete]
  {
    BodiesMore(s, at, last, last + 1);
  }

  // ---- A run that is under way -----------------------------------------------------------

  datatype Half = Reports | Ending

  ghost predicate Agrees(half: Half, cfg: Config, head: Head, m: Machine, s: seq<byte>, at: nat, seen: seq<Event>,
      r: Outcome)
    requires at <= |s|
  {
    var rest := Run(cfg, head, m, s, at);
    match half
    case Reports => r.events == seen + rest.events
    case Ending => r.m == rest.m && r.end == rest.end
  }

  /** The run with the outcome `r` has reported `seen`, and is in `m` at `at`. */
  ghost predicate Leads(cfg: Config, head: Head, m: Machine, s: seq<byte>, at: nat, seen: seq<Event>, r: Outcome)
    requires at <= |s|
  {
    forall half :: Agrees(half, cfg, head, m, s, at, seen, r)
  }

  lemma LeadsIs(cfg: Config, head: Head, m: Machine, s: seq<byte>, at: nat, seen: seq<Event>, r: Outcome)
    requires at <= |s|
    ensures Leads(cfg, head, m, s, at, seen, r) <==> r == After(seen, Run(cfg, head, m, s, at))
  {
    if Leads(cfg, head, m, s, at, seen, r) {
      assert Agrees(Reports, cfg, head, m, s, at, seen, r) && Agrees(Ending, cfg, head, m, s, at, seen, r);
    }
  }

  lemma LeadsOn(cfg: Config, head: Head, m: Machine, s: seq<byte>, at: nat, seen: seq<Event>, r: Outcome, n: Stepped)
    requires at < |s| && !Stopped(m.state) && n == Step(cfg, head, m, s[at]) && Leads(cfg, head, m, s, at, seen, r)
    ensures if Refused(n.m.state) then r == Outcome(n.m, seen + n.events, at)
            else Leads(cfg, head, n.m, s, at + 1, seen + n.events, r)
  {
    LeadsIs(cfg, head, m, s, at, seen, r);
    OneMore(cfg, head, m, s, at, seen, n);
    if !Refused(n.m.state) { LeadsIs(cfg, head, n.m, s, at + 1, seen + n.events, r); }
  }

  lemma LeadsNowhere(cfg: Config, head: Head, m: Machine, s: seq<byte>, at: nat, seen: seq<Event>, r: Outcome)
    requires at <= |s| && (at == |s| || Stopped(m.state)) && Leads(cfg, head, m, s, at, seen, r)
    ensures r == Outcome(m, seen, at)
  {
    LeadsIs(cfg, head, m, s, at, seen, r);
    assert seen + [] == seen;
  }

  lemma LeadsOverChunk(cfg: Config, head: Head, m: Machine, s: seq<byte>, at: nat, seen: seq<Event>, r: Outcome, k: nat)
    requires m.state.ChunkData? && 0 < k <= m.length && at + k <= |s| && Leads(cfg, head, m, s, at, seen, r)
    ensures Leads(cfg, head, Jumped(m, k), s, at + k, seen + Bodies(s, at, at + k), r)
  {
    LeadsIs(cfg, head, m, s, at, seen, r);
    ChunkJump(cfg, head, m, s, at, k, seen);
    LeadsIs(cfg, head, Jumped(m, k), s, at + k, seen + Bodies(s, at, at + k), r);
  }

  lemma LeadsInBody(cfg: Config, head: Head, m: Machine, s: seq<byte>, at: nat, seen: seq<Event>, r: Outcome, k: nat)
    requires InData(m) && k < m.length && at + k <= |s| && Leads(cfg, head, m, s, at, seen, r)
    ensures Leads(cfg, head, Skipped(m, k), s, at + k, seen + Bodies(s, at, at + k), r)
  {
    LeadsIs(cfg, head, m, s, at, seen, r);
    JumpIsSteps(cfg, head, m, s, at, k);
    AfterAfter(seen, Bodies(s, at, at + k), Run(cfg, head, Skipped(m, k), s, at + k));
    LeadsIs(cfg, head, Skipped(m, k), s, at + k, seen + Bodies(s, at, at + k), r);
  }

  lemma LeadsToEnd(cfg: Config, head: Head, m: Machine, s: seq<byte>, at: nat, seen: seq<Event>, r: Outcome)
    requires m.state.BodyIdentity? && 0 < m.length && at + m.length <= |s| && Leads(cfg, head, m, s, at, seen, r)
    ensures var n := Finish(cfg, head, m.(length := 0), Bodies(s, at, at + m.length));
            r == Outcome(n.m, seen + n.events, at + m.length)
  {
    LeadsIs(cfg, head, m, s, at, seen, r);
    LastJump(cfg, head, m, s, at, seen);
  }

  lemma LeadsToEof(cfg: Config, head: Head, m: Machine, s: seq<byte>, at: nat, seen: seq<Event>, r: Outcome)
    requires m.state.BodyIdentityEof? && at <= |s| && Leads(cfg, head, m, s, at, seen, r)
    ensures Leads(cfg, head, m, s, |s|, seen + Bodies(s, at, |s|), r)
  {
    LeadsIs(cfg, head, m, s, at, seen, r);
    EofIsSteps(cfg, head, m, s, at);
    LeadsIs(cfg, head, m, s, |s|, seen + Bodies(s, at, |s|), r);
  }

  // ---- Data that a call may lose ---------------------------------------------------------

  /** The machine after `p` single steps. */
  function StateAt(cfg: Config, head: Head, m: Machine, s: seq<byte>, p: nat): Machine
    requires p <= |s|
  {
    if p == 0 then m else
    var before := StateAt(cfg, head, m, s, p - 1);
    if Stopped(before.state) then before else Step(cfg, head, before, s[p - 1]).m
  }

  /** That is where the run over the first `p` bytes is, as long as it was not refused. */
  lemma {:induction false} StateAtIsRun(cfg: Config, head: Head, m: Machine, s: seq<byte>, p: nat)
    requires p <= |s| && !Stopped(m.state)
    ensures StateAt(cfg, head, m, s, p) == Run(cfg, head, m, s[..p], 0).m
  {
    if p > 0 {
      var a := s[..p - 1];
      StateAtIsRun(cfg, head, m, s, p - 1);
      assert s[..p] == a + [s[p - 1]];
      RunSplit(cfg, head, m, a, [s[p - 1]], 0);
      var r := Run(cfg, head, m, a, 0);
      if !Stopped(r.m.state) {
        OneMore(cfg, head, r.m, s[..p], p - 1, [], Step(cfg, head, r.m, s[p - 1]));
        AfterNothing(Run(cfg, head, r.m, s[..p], p - 1));
      }
    }
  }

  /** The data bytes with which a list of reports ends. */
  function Trailing(events: seq<Event>): seq<Event> {
    if events == [] || !events[|events| - 1].Body? then []
    else Trailing(events[..|events| - 1]) + [events[|events| - 1]]
  }

  lemma {:induction false} TrailingIs(x: seq<Event>, data: seq<Event>)
    requires (x == [] || !x[|x| - 1].Body?) && forall i :: 0 <= i < |data| ==> data[i].Body?
    ensures Trailing(x + data) == data
    decreases |data|
  {
    if data == [] {
      assert x + data == x;
    } else {
      var data', last := data[..|data| - 1], data[|data| - 1];
      TrailingIs(x, data');
      assert (x + data)[..|x + data| - 1] == x + data' && (x + data)[|x + data| - 1] == last;
    }
  }

  /**
   What a call with the bytes `s` does not report: the data of a chunk that it read, when the byte
   right after the chunk is refused in strict mode.
   */
  function Lost(cfg: Config, head: Head, m: Machine, s: seq<byte>): seq<Event> {
    var r := Run(cfg, head, m, s, 0);
    if 0 < r.end && r.m.state == Failed(Strict) && StateAt(cfg, head, m, s, r.end).state.ChunkDataAlmostDone?
    then Trailing(r.events) else []
  }

  /** The same for calls with one piece after the other: what the call that stops loses. */
  function LostInPieces(cfg: Config, head: Head, m: Machine, pieces: seq<seq<byte>>): seq<Event>
    decreases |pieces|
  {
    if pieces == [] then [] else
    var r := Run(cfg, head, m, pieces[0], 0);
    if Stopped(r.m.state) then Lost(cfg, head, m, pieces[0]) else LostInPieces(cfg, head, r.m, pieces[1..])
  }

  /** Data starts after this byte only by a chunk header, and does not end with it. */
  predicate EntersData(n: Stepped) {
    !n.m.state.ChunkDataAlmostDone? && (n.m.state.ChunkData? ==> n.events == [ChunkHeader(n.m.length)])
  }

  lemma HeadersEnterData(cfg: Config, head: Head, m: Machine, ch: byte)
    requires m.state.HeaderFieldStart? || m.state.HeadersAlmostDone?
    ensures EntersData(Act(cfg, head, m, ch))
  {
  }

  lemma LinesEnterData(cfg: Config, head: Head, m: Machine, ch: byte)
    requires InChunks(m.state) && !m.state.ChunkData? && !m.state.ChunkDataAlmostDone?
    ensures EntersData(Act(cfg, head, m, ch))
  {
  }

  lemma IntoChunk(cfg: Config, head: Head, m: Machine, ch: byte)
    requires ParsingHeader(m.state) || m.state.ChunkDataDone?
    ensures EntersData(Step(cfg, head, m, ch))
  {
    var m' := Count(m);
    if m.state.HeaderFieldStart? || m.state.HeadersAlmostDone? {
      HeadersEnterData(cfg, head, m', ch);
    } else {
      LinesEnterData(cfg, head, m', ch);
    }
  }

  /** The states along `s` as a function of the position. */
  function Path(cfg: Config, head: Head, m: Machine, s: seq<byte>): nat -> Machine {
    (p: nat) => if p <= |s| then StateAt(cfg, head, m, s, p) else m
  }

  /** The state after byte `k` is one step from the state before it. */
  ghost predicate Link(cfg: Config, head: Head, at: nat -> Machine, s: seq<byte>, k: nat)
    requires k < |s|
  {
    !Stopped(at(k).state) ==> at(k + 1) == Step(cfg, head, at(k), s[k]).m
  }

  ghost predicate Linked(cfg: Config, head: Head, at: nat -> Machine, s: seq<byte>) {
    forall k: nat :: k < |s| ==> Link(cfg, head, at, s, k)
  }

  lemma PathIsLinked(cfg: Config, head: Head, m: Machine, s: seq<byte>)
    ensures Linked(cfg, head, Path(cfg, head, m, s), s) && Path(cfg, head, m, s)(0) == m
  {
    var at := Path(cfg, head, m, s);
    forall k: nat | k < |s|
      ensures Link(cfg, head, at, s, k)
    {
      assert at(k + 1) == StateAt(cfg, head, m, s, k + 1) && at(k) == StateAt(cfg, head, m, s, k);
    }
  }

  lemma {:induction false} PathInData(cfg: Config, head: Head, at: nat -> Machine, s: seq<byte>, p: nat, k: nat)
    requires Linked(cfg, head, at, s) && p + k <= |s| && InData(at(p)) && k < at(p).length
    ensures at(p + k) == Skipped(at(p), k)
    decreases k
  {
    if k > 0 {
      var j := p + k - 1;
      PathInData(cfg, head, at, s, p, k - 1);
      assert Link(cfg, head, at, s, j);
      DataStep(cfg, head, at(j), s[j]);
    }
  }

  lemma LastDataStep(cfg: Config, head: Head, m: Machine, ch: byte)
    requires m.state.ChunkData? && m.length == 1
    ensures Step(cfg, head, m, ch) == Stepped(Jumped(m, 1), [Body(ch)])
  {
  }

  lemma PathOverChunk(cfg: Config, head: Head, at: nat -> Machine, s: seq<byte>, p: nat, k: nat)
    requires Linked(cfg, head, at, s) && p + k <= |s| && at(p).state.ChunkData? && 0 < k <= at(p).length
    ensures at(p + k) == Jumped(at(p), k)
  {
    if k < at(p).length {
      PathInData(cfg, head, at, s, p, k);
    } else {
      var j := p + k - 1;
      PathInData(cfg, head, at, s, p, k - 1);
      assert Link(cfg, head, at, s, j);
      LastDataStep(cfg, head, at(j), s[j]);
    }
  }

  lemma EofStep(cfg: Config, head: Head, m: Machine, ch: byte)
    requires m.state.BodyIdentityEof?
    ensures Step(cfg, head, m, ch) == Stepped(m, [Body(ch)])
  {
  }

  lemma {:induction false} PathToEof(cfg: Config, head: Head, at: nat -> Machine, s: seq<byte>, p: nat, hi: nat)
    requires Linked(cfg, head, at, s) && p <= hi <= |s| && at(p).state.BodyIdentityEof?
    ensures at(hi) == at(p)
    decreases hi
  {
    if p < hi {
      PathToEof(cfg, head, at, s, p, hi - 1);
      assert Link(cfg, head, at, s, hi - 1);
      EofStep(cfg, head, at(hi - 1), s[hi - 1]);
    }
  }
}
