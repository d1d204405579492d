/** Splitting a URL into its fields by one pass of each state machine. */
module UrlParser {
  import opened Bytes
  import opened UrlStates

  /** The fields that are set, each an offset and a length. */
  type Fields = map<Field, (nat, nat)>

  /** Offsets and lengths are 16-bit numbers; up to this size they are exact. */
  const MaxUrl := 65535

  function Short(n: nat): nat { n % 0x1_0000 }

  /** The state after `k` bytes. */
  function UrlAt(strict: bool, start: UrlState, s: seq<byte>, k: nat): UrlState
    requires k <= |s|
  {
    if k == 0 then start else UrlNext(strict, UrlAt(strict, start, s, k - 1), s[k - 1])
  }

  /** The field of byte `k`. */
  function FieldAt(strict: bool, start: UrlState, s: seq<byte>, k: nat): Option<Field>
    requires k < |s|
  {
    UrlField(UrlAt(strict, start, s, k + 1))
  }

  /** A field covers exactly its bytes among the first `p`. */
  ghost predicate Covers(at: nat -> Option<Field>, p: nat, fields: Fields, f: Field) {
    if f in fields
    then fields[f].1 >= 1 && fields[f].0 + fields[f].1 <= p
         && forall k :: 0 <= k < p ==> (fields[f].0 <= k < fields[f].0 + fields[f].1 <==> at(k) == Some(f))
    else forall k :: 0 <= k < p ==> at(k) != Some(f)
  }

  ghost predicate Marked(at: nat -> Option<Field>, p: nat, fields: Fields) {
    forall f :: Covers(at, p, fields, f)
  }

  /** The bookkeeping for a byte of field `f` at `p`: one more of the field being read, or a new field. */
  function Mark(fields: Fields, f: Field, last: Option<Field>, p: nat): Fields {
    if last == Some(f) && f in fields then fields[f := (fields[f].0, Short(fields[f].1 + 1))]
        else fields[f := (Short(p), 1)]
  }

  /** Offsets and lengths stay inside the text even where they wrap. */
  ghost predicate InBounds(fields: Fields, p: nat) {
    forall f :: f in fields ==> fields[f].0 + fields[f].1 <= p
  }

  /** The field being read ends right before `p`; a field not being read is new. */
  ghost predicate Joins(fields: Fields, f: Field, last: Option<Field>, p: nat) {
    if last == Some(f) then f in fields && fields[f].0 + fields[f].1 == p else f !in fields
  }

  lemma MarkKeeps(at: nat -> Option<Field>, p: nat, fields: Fields, f: Field, last: Option<Field>)
    requires Marked(at, p, fields) && Joins(fields, f, last, p) && at(p) == Some(f) && p < MaxUrl
    ensures Marked(at, p + 1, Mark(fields, f, last, p))
  {
    var fields', p' := Mark(fields, f, last, p), p + 1;
    forall g
      ensures Covers(at, p', fields', g)
    {
      assert Covers(at, p, fields, g);
    }
  }

  lemma SkipKeeps(at: nat -> Option<Field>, p: nat, fields: Fields)
    requires Marked(at, p, fields) && at(p) == None
    ensures Marked(at, p + 1, fields)
  {
    var p' := p + 1;
    forall g
      ensures Covers(at, p', fields, g)
    {
      assert Covers(at, p, fields, g);
    }
  }

  // ---- The URL loop ----------------------------------------------------------------------

  function RankOf(f: Field): nat {
    match f
    case SCHEMA => 1
    case HOST => 5
    case PATH => 6
    case QUERY => 8
    case FRAGMENT => 10
    case USERINFO => 20   // found in the host only
    case PORT => 20
  }

  /** The fields so far lie behind the state, and the one of the state's own rank is being read up to `p`. */
  ghost predicate Reading(q: UrlState, fields: Fields, last: Option<Field>, p: nat) {
    && (forall f :: f in fields ==> RankOf(f) <= UrlRank(q) && (RankOf(f) == UrlRank(q) ==> last == Some(f)))
    && (last.Some? ==> last.value in fields && (RankOf(last.value) == UrlRank(q) ==>
         fields[last.value].0 + fields[last.value].1 == p))
  }

  lemma FieldRank(q: UrlState)
    ensures UrlField(q).Some? ==> UrlRank(q) == RankOf(UrlField(q).value)
    ensures UrlField(q).None? ==> forall f :: RankOf(f) != UrlRank(q)
  {
  }

  lemma ReadsSkip(q: UrlState, q': UrlState, fields: Fields, last: Option<Field>, p: nat)
    requires Reading(q, fields, last, p) && UrlRank(q) <= UrlRank(q') && UrlField(q').None?
    ensures Reading(q', fields, last, p + 1)
  {
    FieldRank(q');
  }

  lemma ReadsMark(q: UrlState, q': UrlState, fields: Fields, last: Option<Field>, p: nat, f: Field)
    requires Reading(q, fields, last, p) && UrlRank(q) <= UrlRank(q') && UrlField(q') == Some(f)
    requires InBounds(fields, p) && p < MaxUrl
    ensures Joins(fields, f, last, p) && Reading(q', Mark(fields, f, last, p), Some(f), p + 1)
  {
    FieldRank(q');
  }

  lemma ReadsOn(strict: bool, q: UrlState, c: byte, fields: Fields, last: Option<Field>, p: nat)
    requires Reading(q, fields, last, p) && p < MaxUrl && InBounds(fields, p)
    ensures var q' := UrlNext(strict, q, c);
            q' != Dead ==> if UrlField(q').None? then Reading(q', fields, last, p + 1)
                           else
                             && Joins(fields, UrlField(q').value, last, p)
                             && Reading(q', Mark(fields, UrlField(q').value, last, p), UrlField(q'), p + 1)
  {
    var q' := UrlNext(strict, q, c);
    UrlForward(strict, q, c);
    if UrlField(q').None? {
      ReadsSkip(q, q', fields, last, p);
    } else {
      ReadsMark(q, q', fields, last, p, UrlField(q').value);
    }
  }

  /** The field of each byte, as one function of its position. */
  function UrlMap(strict: bool, start: UrlState, s: seq<byte>): nat -> Option<Field> {
    (k: nat) => if k < |s| then FieldAt(strict, start, s, k) else None
  }

  /** Whether an '@' of the server part is among the first `k` bytes. */
  predicate SeenAt(strict: bool, start: UrlState, s: seq<byte>, k: nat)
    requires k <= |s|
  {
    k > 0 && (UrlAt(strict, start, s, k) == ServerWithAt || SeenAt(strict, start, s, k - 1))
  }

  lemma {:induction false} DeadStays(strict: bool, start: UrlState, s: seq<byte>, j: nat, k: nat)
    requires j <= k <= |s| && UrlAt(strict, start, s, j) == Dead
    ensures UrlAt(strict, start, s, k) == Dead
    decreases k
  {
    if j < k { DeadStays(strict, start, s, j, k - 1); }
  }

  /** One round of the loop. */
  method SplitByte(strict: bool, q: UrlState, c: byte, fields: Fields, last: Option<Field>, p: nat,
      ghost at: nat -> Option<Field>)
      returns (fields': Fields, last': Option<Field>)
    requires UrlNext(strict, q, c) != Dead && at(p) == UrlField(UrlNext(strict, q, c)) && InBounds(fields, p)
    ensures InBounds(fields', p + 1)
    ensures p < MaxUrl && Marked(at, p, fields) && Reading(q, fields, last, p) ==>
              Marked(at, p + 1, fields') && Reading(UrlNext(strict, q, c), fields', last', p + 1)
  {
    fields', last' := fields, last;
    var uf := UrlField(UrlNext(strict, q, c));
    if uf.Some? {
      fields' := Mark(fields, uf.value, last, p);
      last' := uf;
    }
    if p < MaxUrl && Marked(at, p, fields) && Reading(q, fields, last, p) {
      ReadsOn(strict, q, c, fields, last, p);
      if uf.Some? { MarkKeeps(at, p, fields, uf.value, last); } else { SkipKeeps(at, p, fields); }
    }
  }

  /** The first loop of http_parser_parse_url; None means that some byte is not allowed. */
  method SplitUrl(strict: bool, start: UrlState, s: seq<byte>) returns (r: Option<Fields>, foundAt: bool)
    requires start == SpacesBeforeUrl || start == ServerStart
    ensures r.None? <==> UrlAt(strict, start, s, |s|) == Dead
    ensures r.Some? ==> InBounds(r.value, |s|)
    ensures r.Some? && |s| <= MaxUrl ==> Marked(UrlMap(strict, start, s), |s|, r.value)
    ensures r.Some? ==> foundAt == SeenAt(strict, start, s, |s|)
  {
    var q, fields: Fields, last := start, map[], None;
    ghost var at := UrlMap(strict, start, s);
    foundAt := false;
    for p := 0 to |s|
      invariant q == UrlAt(strict, start, s, p) && q != Dead && InBounds(fields, p)
      invariant |s| <= MaxUrl ==> Marked(at, p, fields) && Reading(q, fields, last, p)
      invariant foundAt == SeenAt(strict, start, s, p)
    {
      var q' := UrlNext(strict, q, s[p]);
      if q' == Dead {
        DeadStays(strict, start, s, p + 1, |s|);
        return None, false;
      }
      if q' == ServerWithAt { foundAt := true; }
      fields, last := SplitByte(strict, q, s[p], fields, last, p, at);
      q := q';
    }
    r := Some(fields);
  }

  // ---- The host loop ---------------------------------------------------------------------

  /** The host's state before byte `k` of s[lo..]. */
  function HostAt(strict: bool, start: HostState, s: seq<byte>, lo: nat, k: nat): HostState
    requires lo <= k <= |s|
  {
    if k == lo then start else HostNext(strict, HostAt(strict, start, s, lo, k - 1), s[k - 1])
  }

  function HostMap(strict: bool, start: HostState, s: seq<byte>, lo: nat, hi: nat): nat -> Option<Field>
    requires lo <= hi <= |s|
  {
    (k: nat) => if lo <= k < hi then HostField(HostAt(strict, start, s, lo, k + 1)) else None
  }

  function HostRankOf(f: Field): nat {
    match f
    case USERINFO => 1
    case HOST => 4
    case PORT => 7
    case _ => 20
  }

  ghost predicate HostReading(q: HostState, fields: Fields, p: nat) {
    && (forall f :: f in fields ==>
           && HostRankOf(f) <= HostRank(q)
           && (HostRankOf(f) == HostRank(q) ==> HostField(q) == Some(f) && fields[f].0 + fields[f].1 == p))
    && (HostField(q).Some? ==> HostField(q).value in fields)
  }

  lemma HostFieldRank(q: HostState)
    ensures HostField(q).Some? ==> HostRank(q) == HostRankOf(HostField(q).value)
    ensures HostField(q).None? ==> forall f :: HostRankOf(f) != HostRank(q)
  {
  }

  lemma HostReadsSkip(q: HostState, q': HostState, fields: Fields, p: nat)
    requires HostReading(q, fields, p) && HostRank(q) <= HostRank(q') && HostField(q').None?
    ensures HostReading(q', fields, p + 1)
  {
    HostFieldRank(q');
  }

  lemma HostReadsMark(q: HostState, q': HostState, fields: Fields, p: nat, f: Field)
    requires HostReading(q, fields, p) && HostRank(q) <= HostRank(q') && HostField(q') == Some(f)
    requires InBounds(fields, p) && p < MaxUrl
    ensures Joins(fields, f, HostField(q), p) && HostReading(q', Mark(fields, f, HostField(q), p), p + 1)
  {
    HostFieldRank(q);
    HostFieldRank(q');
  }

  lemma HostReadsOn(strict: bool, q: HostState, c: byte, fields: Fields, p: nat)
    requires HostReading(q, fields, p) && p < MaxUrl && InBounds(fields, p)
    ensures var q' := HostNext(strict, q, c);
            q' != HostDead ==> if HostField(q').None? then HostReading(q', fields, p + 1)
                               else
                                 && Joins(fields, HostField(q').value, HostField(q), p)
                                 && HostReading(q', Mark(fields, HostField(q').value, HostField(q), p), p + 1)
  {
    var q' := HostNext(strict, q, c);
    HostForward(strict, q, c);
    if HostField(q').None? {
      HostReadsSkip(q, q', fields, p);
    } else {
      HostReadsMark(q, q', fields, p, HostField(q').value);
    }
  }

  lemma {:induction false} HostDeadStays(strict: bool, start: HostState, s: seq<byte>, lo: nat, j: nat, k: nat)
    requires lo <= j <= k <= |s| && HostAt(strict, start, s, lo, j) == HostDead
    ensures HostAt(strict, start, s, lo, k) == HostDead
    decreases k
  {
    if j < k { HostDeadStays(strict, start, s, lo, j, k - 1); }
  }

  method SplitHostByte(strict: bool, q: HostState, c: byte, fields: Fields, p: nat, ghost at: nat -> Option<Field>)
      returns (fields': Fields)
    requires HostNext(strict, q, c) != HostDead && at(p) == HostField(HostNext(strict, q, c)) && InBounds(fields, p)
    ensures InBounds(fields', p + 1)
    ensures p < MaxUrl && Marked(at, p, fields) && HostReading(q, fields, p) ==>
              Marked(at, p + 1, fields') && HostReading(HostNext(strict, q, c), fields', p + 1)
  {
    fields' := fields;
    var uf := HostField(HostNext(strict, q, c));
    if uf.Some? {
      fields' := Mark(fields, uf.value, HostField(q), p);
    }
    if p < MaxUrl && Marked(at, p, fields) && HostReading(q, fields, p) {
      HostReadsOn(strict, q, c, fields, p);
      if uf.Some? { MarkKeeps(at, p, fields, uf.value, HostField(q)); } else { SkipKeeps(at, p, fields); }
    }
  }

  /** http_parse_host over s[lo..hi]. */
  method SplitHost(strict: bool, start: HostState, s: seq<byte>, lo: nat, hi: nat) returns (r: Option<Fields>)
    requires lo <= hi <= |s| && (start == UserinfoStart || start == HostStart)
    ensures r.Some? <==> HostMayEnd(HostAt(strict, start, s, lo, hi))
    ensures r.Some? ==> InBounds(r.value, hi)
    ensures r.Some? && |s| <= MaxUrl ==> Marked(HostMap(strict, start, s, lo, hi), hi, r.value)
  {
    var q, fields: Fields := start, map[];
    ghost var at := HostMap(strict, start, s, lo, hi);
    for p := lo to hi
      invariant q == HostAt(strict, start, s, lo, p) && q != HostDead && InBounds(fields, p)
      invariant |s| <= MaxUrl ==> Marked(at, p, fields) && HostReading(q, fields, p)
    {
      var q' := HostNext(strict, q, s[p]);
      if q' == HostDead {
        HostDeadStays(strict, start, s, lo, p + 1, hi);
        return None;
      }
      fields := SplitHostByte(strict, q, s[p], fields, p, at);
      q := q';
    }
    r := if HostMayEnd(q) then Some(fields) else None;
  }

  // ---- The port --------------------------------------------------------------------------

  /** The port loop: the value of the digits, refused above 65535. */
  method ReadPort(s: seq<byte>, lo: nat, hi: nat) returns (r: Option<nat>)
    requires lo <= hi <= |s| && forall k :: lo <= k < hi ==> IsNum(s[k])
    ensures r == if Number(s, lo, hi) <= 0xFFFF then Some(Number(s, lo, hi)) else None
  {
    var v: nat := 0;
    for p := lo to hi
      invariant v == Number(s, lo, p) <= 0xFFFF
    {
      v := v * 10 + (s[p] - 48);
      if v > 0xFFFF {
        NumberGrows(s, lo, p + 1, hi);
        return None;
      }
    }
    r := Some(v);
  }

  // ---- The whole URL ---------------------------------------------------------------------

  datatype ParsedUrl = ParsedUrl(fields: Fields, port: nat)

  function StartOf(connect: bool): UrlState { if connect then ServerStart else SpacesBeforeUrl }

  /** Where the host machine starts. */
  function HostBegin(strict: bool, start: UrlState, s: seq<byte>): HostState {
    if SeenAt(strict, start, s, |s|) then UserinfoStart else HostStart
  }

  /** The server part is s[lo..hi]. */
  ghost predicate HostSpan(strict: bool, start: UrlState, s: seq<byte>, lo: nat, hi: nat) {
    lo <= hi <= |s| && forall k :: 0 <= k < |s| ==> (lo <= k < hi <==> FieldAt(strict, start, s, k) == Some(HOST))
  }

  /** The field of each byte, with the server part split by the host machine. */
  function WholeMap(strict: bool, start: UrlState, s: seq<byte>, lo: nat, hi: nat): nat -> Option<Field>
    requires lo <= hi <= |s|
  {
    (k: nat) =>
      if lo <= k < hi then HostField(HostAt(strict, HostBegin(strict, start, s), s, lo, k + 1))
      else if k < |s| then FieldAt(strict, start, s, k) else None
  }

  /** The port field is a number that fits, and `port` is its value; without the field it is zero. */
  ghost predicate PortOk(s: seq<byte>, u: ParsedUrl) {
    if PORT !in u.fields then u.port == 0 else
    var lo, hi := u.fields[PORT].0, u.fields[PORT].0 + u.fields[PORT].1;
    hi <= |s| && (forall k :: lo <= k < hi ==> IsNum(s[k])) && u.port == Number(s, lo, hi) <= 0xFFFF
  }

  /** What it means for `u` to be the parts of the URL `s`. */
  ghost predicate Parsed(strict: bool, connect: bool, s: seq<byte>, lo: nat, hi: nat, u: ParsedUrl) {
    var start := StartOf(connect);
    && s != [] && UrlAt(strict, start, s, |s|) != Dead
    && HostSpan(strict, start, s, lo, hi)
    && (lo < hi ==> HostMayEnd(HostAt(strict, HostBegin(strict, start, s), s, lo, hi)))
    && Marked(WholeMap(strict, start, s, lo, hi), |s|, u.fields)
    && (SCHEMA in u.fields ==> lo < hi) && (connect ==> u.fields.Keys == {HOST, PORT})
    && PortOk(s, u)
  }

  /** A field's bytes determine its offset and length. */
  lemma MarkedUnique(at: nat -> Option<Field>, at': nat -> Option<Field>, p: nat, a: Fields, b: Fields)
    requires Marked(at, p, a) && Marked(at', p, b) && forall k: nat :: k < p ==> at(k) == at'(k)
    ensures a == b
  {
    forall f
      ensures f in a <==> f in b
      ensures f in a ==> a[f] == b[f]
    {
      SameField(at, at', p, a, b, f);
    }
  }

  lemma SameField(at: nat -> Option<Field>, at': nat -> Option<Field>, p: nat, a: Fields, b: Fields, f: Field)
    requires Marked(at, p, a) && Marked(at', p, b) && forall k: nat :: k < p ==> at(k) == at'(k)
    ensures f in a <==> f in b
    ensures f in a ==> a[f] == b[f]
  {
    assert Covers(at, p, a, f) && Covers(at', p, b, f);
    if f in a {
      var o, l := a[f].0, a[f].1;
      assert at(o) == Some(f) && at(o + l - 1) == Some(f);
    }
    if f in b {
      var o, l := b[f].0, b[f].1;
      assert at'(o) == Some(f) && at'(o + l - 1) == Some(f);
    }
  }

  /** The server part is unique, as far as it matters. */
  lemma SpanUnique(strict: bool, start: UrlState, s: seq<byte>, lo: nat, hi: nat, lo': nat, hi': nat)
    requires HostSpan(strict, start, s, lo, hi) && HostSpan(strict, start, s, lo', hi')
    ensures lo < hi <==> lo' < hi'
    ensures lo < hi ==> lo == lo' && hi == hi'
  {
    if lo < hi {
      assert FieldAt(strict, start, s, lo) == Some(HOST) && FieldAt(strict, start, s, hi - 1) == Some(HOST);
    }
    if lo' < hi' {
      assert FieldAt(strict, start, s, lo') == Some(HOST) && FieldAt(strict, start, s, hi' - 1) == Some(HOST);
    }
  }

  /** So there is at most one way to read a URL. */
  lemma Determined(strict: bool, connect: bool, s: seq<byte>, lo: nat, hi: nat, fields: Fields, lo': nat, hi': nat,
      u: ParsedUrl)
    requires HostSpan(strict, StartOf(connect), s, lo, hi)
             && Marked(WholeMap(strict, StartOf(connect), s, lo, hi), |s|, fields)
    requires Parsed(strict, connect, s, lo', hi', u)
    ensures u.fields == fields && (lo < hi <==> lo' < hi') && (lo < hi ==> lo == lo' && hi == hi')
  {
    SpanUnique(strict, StartOf(connect), s, lo, hi, lo', hi');
    MarkedUnique(WholeMap(strict, StartOf(connect), s, lo, hi), WholeMap(strict, StartOf(connect), s, lo', hi'), |s|,
        fields, u.fields);
  }

  lemma SpanOf(strict: bool, start: UrlState, s: seq<byte>, fields: Fields)
    requires Marked(UrlMap(strict, start, s), |s|, fields)
    ensures if HOST in fields then HostSpan(strict, start, s, fields[HOST].0, fields[HOST].0 + fields[HOST].1)
            && fields[HOST].1 > 0
            else HostSpan(strict, start, s, 0, 0)
  {
    var url := UrlMap(strict, start, s);
    assert Covers(url, |s|, fields, HOST);
    assert forall k: nat :: k < |s| ==> url(k) == FieldAt(strict, start, s, k);
  }

  /** Without a server part. */
  lemma NoServer(strict: bool, start: UrlState, s: seq<byte>, fields: Fields)
    requires Marked(UrlMap(strict, start, s), |s|, fields)
    ensures Marked(WholeMap(strict, start, s, 0, 0), |s|, fields)
  {
    var url, whole := UrlMap(strict, start, s), WholeMap(strict, start, s, 0, 0);
    assert forall k: nat :: k < |s| ==> whole(k) == url(k);
    forall f
      ensures Covers(whole, |s|, fields, f)
    {
      assert Covers(url, |s|, fields, f);
    }
  }

  /** The fields of the server part take the place of the whole. */
  lemma WithServer(strict: bool, start: UrlState, s: seq<byte>, fields: Fields, lo: nat, hi: nat, host: Fields)
    requires Marked(UrlMap(strict, start, s), |s|, fields) && HostSpan(strict, start, s, lo, hi)
    requires Marked(HostMap(strict, HostBegin(strict, start, s), s, lo, hi), hi, host)
    ensures Marked(WholeMap(strict, start, s, lo, hi), |s|, (fields - {HOST}) + host)
  {
    var url, inner := UrlMap(strict, start, s), HostMap(strict, HostBegin(strict, start, s), s, lo, hi);
    var whole, merged := WholeMap(strict, start, s, lo, hi), (fields - {HOST}) + host;
    assert forall k: nat :: k < |s| ==> whole(k) == if lo <= k < hi then inner(k) else url(k);
    assert forall k: nat :: k < |s| ==> (url(k) == Some(HOST) <==> lo <= k < hi);
    forall f
      ensures Covers(whole, |s|, merged, f)
    {
      assert Covers(url, |s|, fields, f) && Covers(inner, hi, host, f);
      MergeOne(url, inner, whole, |s|, lo, hi, fields, host, f);
    }
  }

  lemma MergeOne(url: nat -> Option<Field>, inner: nat -> Option<Field>, whole: nat -> Option<Field>, n: nat,
      lo: nat, hi: nat, fields: Fields, host: Fields, f: Field)
    requires lo <= hi <= n && Covers(url, n, fields, f) && Covers(inner, hi, host, f)
    requires forall k: nat :: k < n ==> whole(k) == if lo <= k < hi then inner(k) else url(k)
    requires forall k: nat :: k < n ==> (url(k) == Some(HOST) <==> lo <= k < hi)
    requires forall k: nat :: k < n ==> url(k) != Some(USERINFO) && url(k) != Some(PORT)
    requires forall k: nat :: k < hi ==> (inner(k).Some? ==> lo <= k && inner(k).value in {USERINFO, HOST, PORT})
    ensures Covers(whole, n, (fields - {HOST}) + host, f)
  {
    var merged := (fields - {HOST}) + host;
    if f in fields { assert url(fields[f].0) == Some(f); }
    if f in host { assert inner(host[f].0) == Some(f); }
    forall k: nat | k < n
      ensures whole(k) == Some(f) <==> f in merged && merged[f].0 <= k < merged[f].0 + merged[f].1
    {
      assert k < hi ==> (inner(k) == Some(f) <==> f in host && host[f].0 <= k < host[f].0 + host[f].1);
      assert url(k) == Some(f) <==> f in fields && fields[f].0 <= k < fields[f].0 + fields[f].1;
    }
  }

  lemma PortDigits(strict: bool, start: UrlState, s: seq<byte>, lo: nat, hi: nat, fields: Fields)
    requires lo <= hi <= |s| && Marked(WholeMap(strict, start, s, lo, hi), |s|, fields) && PORT in fields
    ensures fields[PORT].0 + fields[PORT].1 <= |s|
            && forall k :: fields[PORT].0 <= k < fields[PORT].0 + fields[PORT].1 ==> IsNum(s[k])
  {
    var whole := WholeMap(strict, start, s, lo, hi);
    assert Covers(whole, |s|, fields, PORT);
    forall k | fields[PORT].0 <= k < fields[PORT].0 + fields[PORT].1
      ensures IsNum(s[k])
    {
      assert whole(k) == Some(PORT) && FieldAt(strict, start, s, k) != Some(PORT);
      PortByte(strict, HostAt(strict, HostBegin(strict, start, s), s, lo, k), s[k]);
    }
  }

  lemma PortByte(strict: bool, q: HostState, c: byte)
    requires HostField(HostNext(strict, q, c)) == Some(PORT)
    ensures IsNum(c)
  {
  }

  /** The server part, once the URL is split: None when it is missing after a scheme, or not a host. */
  method SplitServer(strict: bool, start: UrlState, s: seq<byte>, fields: Fields, foundAt: bool)
      returns (r: Option<Fields>, ghost lo: nat, ghost hi: nat)
    requires InBounds(fields, |s|) && foundAt == SeenAt(strict, start, s, |s|)
    ensures r.Some? ==> InBounds(r.value, |s|)
    ensures |s| <= MaxUrl && Marked(UrlMap(strict, start, s), |s|, fields) ==> HostSpan(strict, start, s, lo, hi)
    ensures |s| <= MaxUrl && Marked(UrlMap(strict, start, s), |s|, fields) && r.Some? ==>
              && (lo < hi ==> HostMayEnd(HostAt(strict, HostBegin(strict, start, s), s, lo, hi)))
              && Marked(WholeMap(strict, start, s, lo, hi), |s|, r.value) && (SCHEMA in r.value ==> lo < hi)
    ensures |s| <= MaxUrl && Marked(UrlMap(strict, start, s), |s|, fields) && r.None? ==>
              if lo < hi then !HostMayEnd(HostAt(strict, HostBegin(strict, start, s), s, lo, hi))
              else SCHEMA in fields && Marked(WholeMap(strict, start, s, lo, hi), |s|, fields)
  {
    lo, hi := 0, 0;
    if |s| <= MaxUrl && Marked(UrlMap(strict, start, s), |s|, fields) {
      SpanOf(strict, start, s, fields);
      NoServer(strict, start, s, fields);
    }
    if HOST !in fields {
      return if SCHEMA in fields then None else Some(fields), lo, hi;
    }
    var from, to := fields[HOST].0, fields[HOST].0 + fields[HOST].1;
    lo, hi := from, to;
    var host := SplitHost(strict, if foundAt then UserinfoStart else HostStart, s, from, to);
    if host.None? { return None, lo, hi; }
    if |s| <= MaxUrl && Marked(UrlMap(strict, start, s), |s|, fields) {
      WithServer(strict, start, s, fields, lo, hi, host.value);
    }
    r := Some((fields - {HOST}) + host.value);
  }

  /**
   http_parser_parse_url. Up to `MaxUrl` bytes it accepts exactly the URLs that can be read, and
   returns the one way to read them.
   */
  method ParseUrl(strict: bool, s: seq<byte>, connect: bool)
      returns (r: Option<ParsedUrl>, ghost lo: nat, ghost hi: nat)
    ensures r.Some? ==> InBounds(r.value.fields, |s|)
    ensures |s| <= MaxUrl && r.Some? ==> Parsed(strict, connect, s, lo, hi, r.value)
    ensures |s| <= MaxUrl && r.None? ==> forall lo', hi', u :: !Parsed(strict, connect, s, lo', hi', u)
  {
    lo, hi := 0, 0;
    if s == [] { return None, 0, 0; }
    ghost var start := StartOf(connect);
    var split, foundAt := SplitUrl(strict, StartOf(connect), s);
    if split.None? { return None, 0, 0; }
    var fields;
    fields, lo, hi := SplitServer(strict, StartOf(connect), s, split.value, foundAt);
    if fields.None? {
      if |s| <= MaxUrl { ServerRefused(strict, connect, s, lo, hi, split.value); }
      return None, lo, hi;
    }
    r := FinishUrl(strict, connect, s, fields.value, lo, hi);
  }

  lemma ServerRefused(strict: bool, connect: bool, s: seq<byte>, lo: nat, hi: nat, fields: Fields)
    requires HostSpan(strict, StartOf(connect), s, lo, hi)
    requires if lo < hi then !HostMayEnd(HostAt(strict, HostBegin(strict, StartOf(connect), s), s, lo, hi))
             else SCHEMA in fields && Marked(WholeMap(strict, StartOf(connect), s, lo, hi), |s|, fields)
    ensures forall lo', hi', u :: !Parsed(strict, connect, s, lo', hi', u)
  {
    forall lo': nat, hi': nat, u | Parsed(strict, connect, s, lo', hi', u)
      ensures false
    {
      SpanUnique(strict, StartOf(connect), s, lo, hi, lo', hi');
      if lo >= hi { Determined(strict, connect, s, lo, hi, fields, lo', hi', u); }
    }
  }

  /** The checks for CONNECT and the port. */
  method FinishUrl(strict: bool, connect: bool, s: seq<byte>, fields: Fields, ghost lo: nat, ghost hi: nat)
      returns (r: Option<ParsedUrl>)
    requires s != [] && UrlAt(strict, StartOf(connect), s, |s|) != Dead && InBounds(fields, |s|)
    requires |s| <= MaxUrl ==>
               && HostSpan(strict, StartOf(connect), s, lo, hi)
               && (lo < hi ==> HostMayEnd(HostAt(strict, HostBegin(strict, StartOf(connect), s), s, lo, hi)))
               && Marked(WholeMap(strict, StartOf(connect), s, lo, hi), |s|, fields) && (SCHEMA in fields ==> lo < hi)
    ensures r.Some? ==> r.value.fields == fields
    ensures |s| <= MaxUrl && r.Some? ==> Parsed(strict, connect, s, lo, hi, r.value)
    ensures |s| <= MaxUrl && r.None? ==> forall lo', hi', u :: !Parsed(strict, connect, s, lo', hi', u)
  {
    if |s| <= MaxUrl {
      forall lo': nat, hi': nat, u | Parsed(strict, connect, s, lo', hi', u)
        ensures u.fields == fields
      {
        Determined(strict, connect, s, lo, hi, fields, lo', hi', u);
      }
      if PORT in fields { PortDigits(strict, StartOf(connect), s, lo, hi, fields); }
    }
    if connect && fields.Keys != {HOST, PORT} { return None; }
    if PORT !in fields { return Some(ParsedUrl(fields, 0)); }
    var port := PortValue(s, fields[PORT].0, fields[PORT].0 + fields[PORT].1);
    r := if port.None? then None else Some(ParsedUrl(fields, port.value));
  }

  /** The port loop; beyond `MaxUrl` bytes it may meet bytes that are not digits. */
  method PortValue(s: seq<byte>, lo: nat, hi: nat) returns (r: Option<nat>)
    requires lo <= hi <= |s|
    ensures (forall k :: lo <= k < hi ==> IsNum(s[k])) ==>
            r == if Number(s, lo, hi) <= 0xFFFF then Some(Number(s, lo, hi)) else None
  {
    if forall k :: lo <= k < hi ==> IsNum(s[k]) {
      r := ReadPort(s, lo, hi);
    } else {
      r := None;
    }
  }

  predicate IsDelimiter(c: byte) {
    c == Colon || c == Slash || c == Question || c == Hash || c == At || c == OpenBracket || c == CloseBracket
  }

  /** The place of a field in the grammar. */
  function Place(f: Field): nat {
    match f
    case SCHEMA => 0
    case USERINFO => 1
    case HOST => 2
    case PORT => 3
    case PATH => 4
    case QUERY => 5
    case FRAGMENT => 6
  }

  lemma {:induction false} RankGrows(strict: bool, start: UrlState, s: seq<byte>, j: nat, k: nat)
    requires j <= k <= |s|
    ensures UrlRank(UrlAt(strict, start, s, j)) <= UrlRank(UrlAt(strict, start, s, k))
    decreases k
  {
    if j < k {
      RankGrows(strict, start, s, j, k - 1);
      UrlForward(strict, UrlAt(strict, start, s, k - 1), s[k - 1]);
    }
  }

  lemma {:induction false} HostRankGrows(strict: bool, start: HostState, s: seq<byte>, lo: nat, j: nat, k: nat)
    requires lo <= j <= k <= |s|
    ensures HostRank(HostAt(strict, start, s, lo, j)) <= HostRank(HostAt(strict, start, s, lo, k))
    decreases k
  {
    if j < k {
      HostRankGrows(strict, start, s, lo, j, k - 1);
      HostForward(strict, HostAt(strict, start, s, lo, k - 1), s[k - 1]);
    }
  }

  lemma UrlPlaces(q: UrlState, q': UrlState)
    requires UrlRank(q) <= UrlRank(q') && UrlField(q).Some? && UrlField(q').Some?
    ensures Place(UrlField(q).value) <= Place(UrlField(q').value)
    ensures UrlField(q) == Some(HOST) && UrlField(q') != Some(HOST) ==> Place(UrlField(q').value) > 3
    ensures UrlField(q') == Some(HOST) && UrlField(q) != Some(HOST) ==> Place(UrlField(q).value) == 0
  {
  }

  lemma HostPlaces(q: HostState, q': HostState)
    requires HostRank(q) <= HostRank(q') && HostField(q).Some? && HostField(q').Some?
    ensures Place(HostField(q).value) <= Place(HostField(q').value)
  {
  }

  lemma HostPlaceBounds(q: HostState)
    ensures HostField(q).Some? ==> 1 <= Place(HostField(q).value) <= 3
  {
  }

  lemma PlacesGrowInside(strict: bool, begin: HostState, s: seq<byte>, lo: nat, j: nat, k: nat)
    requires lo <= j < k < |s|
    ensures var f, g := HostField(HostAt(strict, begin, s, lo, j + 1)), HostField(HostAt(strict, begin, s, lo, k + 1));
            f.Some? && g.Some? ==> Place(f.value) <= Place(g.value)
  {
    var q, q' := HostAt(strict, begin, s, lo, j + 1), HostAt(strict, begin, s, lo, k + 1);
    HostRankGrows(strict, begin, s, lo, j + 1, k + 1);
    if HostField(q).Some? && HostField(q').Some? { HostPlaces(q, q'); }
  }

  lemma PlacesGrowOutside(strict: bool, start: UrlState, s: seq<byte>, j: nat, k: nat)
    requires j < k < |s|
    ensures var f, g := FieldAt(strict, start, s, j), FieldAt(strict, start, s, k);
            f.Some? && g.Some? ==>
              && Place(f.value) <= Place(g.value)
              && (f == Some(HOST) && g != Some(HOST) ==> Place(g.value) > 3)
              && (g == Some(HOST) && f != Some(HOST) ==> Place(f.value) == 0)
  {
    var q, q' := UrlAt(strict, start, s, j + 1), UrlAt(strict, start, s, k + 1);
    RankGrows(strict, start, s, j + 1, k + 1);
    if UrlField(q).Some? && UrlField(q').Some? { UrlPlaces(q, q'); }
  }

  /** Along the URL the fields come in the order of the grammar. */
  lemma PlacesGrow(strict: bool, start: UrlState, s: seq<byte>, lo: nat, hi: nat, j: nat, k: nat)
    requires HostSpan(strict, start, s, lo, hi) && j < k < |s|
    ensures var whole := WholeMap(strict, start, s, lo, hi);
            whole(j).Some? && whole(k).Some? ==> Place(whole(j).value) <= Place(whole(k).value)
  {
    var begin := HostBegin(strict, start, s);
    PlacesGrowOutside(strict, start, s, j, k);
    if lo <= j < hi { HostPlaceBounds(HostAt(strict, begin, s, lo, j + 1)); }
    if lo <= k < hi { HostPlaceBounds(HostAt(strict, begin, s, lo, k + 1)); }
    if lo <= j && k < hi { PlacesGrowInside(strict, begin, s, lo, j, k); }
  }

  lemma InOrder(strict: bool, connect: bool, s: seq<byte>, lo: nat, hi: nat, u: ParsedUrl, f: Field, g: Field)
    requires Parsed(strict, connect, s, lo, hi, u) && f in u.fields && g in u.fields && Place(f) < Place(g)
    ensures u.fields[f].0 + u.fields[f].1 <= u.fields[g].0
  {
    var whole := WholeMap(strict, StartOf(connect), s, lo, hi);
    assert Covers(whole, |s|, u.fields, f) && Covers(whole, |s|, u.fields, g);
    var a, b := u.fields[f].0 + u.fields[f].1 - 1, u.fields[g].0;
    assert whole(a) == Some(f) && whole(b) == Some(g);
    if b < a { PlacesGrow(strict, StartOf(connect), s, lo, hi, b, a); }
  }

  lemma Covered(at: nat -> Option<Field>, p: nat, fields: Fields, k: nat)
    requires Marked(at, p, fields) && k < p && at(k).Some?
    ensures at(k).value in fields && fields[at(k).value].0 <= k < fields[at(k).value].0 + fields[at(k).value].1
  {
    assert Covers(at, p, fields, at(k).value);
  }

  lemma DelimiterOutside(strict: bool, connect: bool, s: seq<byte>, lo: nat, hi: nat, u: ParsedUrl, k: nat)
    requires Parsed(strict, connect, s, lo, hi, u) && k < |s|
    requires forall f :: f in u.fields ==> !(u.fields[f].0 <= k < u.fields[f].0 + u.fields[f].1)
    ensures IsDelimiter(s[k])
  {
    var start, whole := StartOf(connect), WholeMap(strict, StartOf(connect), s, lo, hi);
    if whole(k).Some? { Covered(whole, |s|, u.fields, k); }
    if lo <= k < hi {
      var begin := HostBegin(strict, start, s);
      if HostAt(strict, begin, s, lo, k + 1) == HostDead { HostDeadStays(strict, begin, s, lo, k + 1, hi); }
      HostForward(strict, HostAt(strict, begin, s, lo, k), s[k]);
    } else {
      if UrlAt(strict, start, s, k + 1) == Dead { DeadStays(strict, start, s, k + 1, |s|); }
      UrlForward(strict, UrlAt(strict, start, s, k), s[k]);
    }
  }

  /**
   The reported fields are in bounds, not empty, one after the other in the order of the grammar,
   and every byte outside them is a delimiter; the port is the value of its field.
   */
  lemma FieldPartition(strict: bool, connect: bool, s: seq<byte>, lo: nat, hi: nat, u: ParsedUrl)
    requires Parsed(strict, connect, s, lo, hi, u)
    ensures forall f :: f in u.fields ==> u.fields[f].1 >= 1 && u.fields[f].0 + u.fields[f].1 <= |s|
    ensures forall f, g :: f in u.fields && g in u.fields && Place(f) < Place(g) ==>
            u.fields[f].0 + u.fields[f].1 <= u.fields[g].0
    ensures forall k: nat ::
              k < |s| && (forall f :: f in u.fields ==> !(u.fields[f].0 <= k < u.fields[f].0 + u.fields[f].1)) ==>
                IsDelimiter(s[k])
    ensures PortOk(s, u) && u.port <= 0xFFFF
  {
    forall f | f in u.fields
      ensures u.fields[f].1 >= 1 && u.fields[f].0 + u.fields[f].1 <= |s|
    {
      assert Covers(WholeMap(strict, StartOf(connect), s, lo, hi), |s|, u.fields, f);
    }
    forall f, g | f in u.fields && g in u.fields && Place(f) < Place(g)
      ensures u.fields[f].0 + u.fields[f].1 <= u.fields[g].0
    {
      InOrder(strict, connect, s, lo, hi, u, f, g);
    }
    forall k: nat | k < |s| && (forall f :: f in u.fields ==> !(u.fields[f].0 <= k < u.fields[f].0 + u.fields[f].1))
      ensures IsDelimiter(s[k])
    {
      DelimiterOutside(strict, connect, s, lo, hi, u, k);
    }
  }
}
