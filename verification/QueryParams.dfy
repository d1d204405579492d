/** The query-parameter scanner, and the case-insensitive map it fills. */
module QueryParams {
  import opened Bytes
  import opened UrlCodec

  type Text = seq<byte>
  type Pair = (Text, Text)

  // ---- The map ---------------------------------------------------------------------------

  function Lower(c: byte): byte { if 65 <= c <= 90 then c + 32 else c }

  /** How strcasecmp reads a string from `i` on: up to the first NUL, without case. */
  function FoldFrom(s: Text, i: nat): Text
    requires i <= |s|
    decreases |s| - i
  {
    if i == |s| || s[i] == 0 then [] else [Lower(s[i])] + FoldFrom(s, i + 1)
  }

  function Fold(s: Text): Text { FoldFrom(s, 0) }

  /** strcasecmp < 0 from `i` on. */
  predicate LessFrom(a: Text, b: Text, i: nat)
    requires i <= |a| && i <= |b|
    decreases |a| - i
  {
    var x := if i < |a| then Lower(a[i]) else 0;
    var y := if i < |b| then Lower(b[i]) else 0;
    if x != y then x < y else if x == 0 then false else LessFrom(a, b, i + 1)
  }

  /** The comparator of the map. */
  predicate Less(a: Text, b: Text) { LessFrom(a, b, 0) }

  lemma {:induction false} SameFrom(a: Text, b: Text, i: nat)
    requires i <= |a| && i <= |b|
    ensures !LessFrom(a, b, i) && !LessFrom(b, a, i) <==> FoldFrom(a, i) == FoldFrom(b, i)
    decreases |a| - i
  {
    var x := if i < |a| then Lower(a[i]) else 0;
    var y := if i < |b| then Lower(b[i]) else 0;
    if x == y && x != 0 {
      SameFrom(a, b, i + 1);
      assert FoldFrom(a, i) == [x] + FoldFrom(a, i + 1);
      assert FoldFrom(b, i) == [x] + FoldFrom(b, i + 1);
      assert FoldFrom(a, i)[1..] == FoldFrom(a, i + 1) && FoldFrom(b, i)[1..] == FoldFrom(b, i + 1);
    } else if x != y {
      assert x != 0 ==> FoldFrom(a, i)[0] == x;
      assert y != 0 ==> FoldFrom(b, i)[0] == y;
    }
  }

  /** Keys are the same for the map exactly when they agree up to case and up to the first NUL. */
  lemma SameKey(a: Text, b: Text)
    ensures !Less(a, b) && !Less(b, a) <==> Fold(a) == Fold(b)
  {
    SameFrom(a, b, 0);
  }

  /** The map, by what its comparator sees of a key; the first key of its kind is kept. */
  type Params = map<Text, Pair>

  function Insert(m: Params, p: Pair): Params { if Fold(p.0) in m then m else m[Fold(p.0) := p] }

  /** The first `n` pairs inserted one after the other. */
  function InsertTo(m: Params, pairs: seq<Pair>, n: nat): Params
    requires n <= |pairs|
  {
    if n == 0 then m else Insert(InsertTo(m, pairs, n - 1), pairs[n - 1])
  }

  function InsertAll(m: Params, pairs: seq<Pair>): Params { InsertTo(m, pairs, |pairs|) }

  /** The pair at `i` is the first with its key. */
  predicate FirstOf(pairs: seq<Pair>, i: nat)
    requires i < |pairs|
  {
    forall j :: 0 <= j < i ==> Fold(pairs[j].0) != Fold(pairs[i].0)
  }

  lemma {:induction false} KeyFrom(pairs: seq<Pair>, n: nat, f: Text) returns (i: nat)
    requires n <= |pairs| && f in InsertTo(map[], pairs, n)
    ensures i < n && FirstOf(pairs, i) && Fold(pairs[i].0) == f && InsertTo(map[], pairs, n)[f] == pairs[i]
  {
    if f in InsertTo(map[], pairs, n - 1) {
      i := KeyFrom(pairs, n - 1, f);
    } else {
      i := n - 1;
      forall j | 0 <= j < i
        ensures Fold(pairs[j].0) != f
      {
        KeyStays(pairs, n - 1, j);
      }
    }
  }

  lemma {:induction false} KeyStays(pairs: seq<Pair>, n: nat, i: nat)
    requires i < n <= |pairs|
    ensures Fold(pairs[i].0) in InsertTo(map[], pairs, n)
  {
    if i < n - 1 { KeyStays(pairs, n - 1, i); }
  }

  /** Into an empty map: each key is there once, with the first value given for it, and no other key is. */
  lemma FirstWins(pairs: seq<Pair>, f: Text)
    ensures f in InsertAll(map[], pairs) <==> exists i :: 0 <= i < |pairs| && Fold(pairs[i].0) == f
    ensures f in InsertAll(map[], pairs) ==>
              exists i: nat :: i < |pairs| && FirstOf(pairs, i) && Fold(pairs[i].0) == f
                  && InsertAll(map[], pairs)[f] == pairs[i]
  {
    if f in InsertAll(map[], pairs) {
      var i := KeyFrom(pairs, |pairs|, f);
    } else if exists i :: 0 <= i < |pairs| && Fold(pairs[i].0) == f {
      var i :| 0 <= i < |pairs| && Fold(pairs[i].0) == f;
      KeyStays(pairs, |pairs|, i);
    }
  }

  // ---- The scanner -----------------------------------------------------------------------

  /** `str.find(c, from)`; the length stands for npos. */
  function Find(s: Text, c: byte, from: nat): (k: nat)
    requires from <= |s|
    ensures from <= k <= |s| && (k < |s| ==> s[k] == c) && forall i :: from <= i < k ==> s[i] != c
    decreases |s| - from
  {
    if from == |s| || s[from] == c then from else Find(s, c, from + 1)
  }

  /** The pair in s[pos..end] with its '=' at `key`. */
  function PairAt(s: Text, pos: nat, key: nat, end: nat): Pair
    requires pos <= key < end <= |s|
  {
    (Decoded(s[pos..key], true), Decoded(s[key + 1..end], true))
  }

  /** The scan of a query from `pos` on, into `m`. */
  function ScanFrom(m: Params, s: Text, pos: nat): Params
    requires pos <= |s|
    decreases |s| - pos
  {
    var key := Find(s, Equals, pos);
    if key == |s| then m else
    var end := Find(s, Ampersand, key);
    var m' := Insert(m, PairAt(s, pos, key, end));
    if end == |s| then m' else ScanFrom(m', s, end + 1)
  }

  class HttpRequest {
    const query: Text
    var params: Params
    var queryParsed: bool

    constructor (query: Text)
      ensures this.query == query && params == map[] && !queryParsed
    {
      this.query, params, queryParsed := query, map[], false;
    }

    /** The pair in query[last..pos], with its '=' at `key`. */
    method InsertPair(last: nat, key: nat, pos: nat)
      requires last <= key < pos <= |query|
      modifies this`params
      ensures params == Insert(old(params), PairAt(query, last, key, pos))
    {
      var k := UrlDecode(query[last..key], true);
      var v := UrlDecode(query[key + 1..pos], true);
      params := Insert(params, (k, v));
    }

    /** One round of the scan; `more` says that another pair may follow at `pos'`. */
    method ScanPair(pos: nat) returns (pos': nat, more: bool)
      requires pos <= |query|
      modifies this`params
      ensures pos <= pos' <= |query| && (more ==> pos < pos')
      ensures ScanFrom(old(params), query, pos) == if more then ScanFrom(params, query, pos') else params
    {
      var key := Find(query, Equals, pos);
      if key == |query| { return pos, false; }
      pos' := Find(query, Ampersand, key);
      InsertPair(pos, key, pos');
      if pos' == |query| { return pos', false; }
      pos', more := pos' + 1, true;
    }

    /** PARSE_PARAM(m_query, m_params, '&', ), once. */
    method InitQueryParam()
      modifies this
      ensures queryParsed
      ensures params == if old(queryParsed) then old(params) else ScanFrom(old(params), query, 0)
    {
      if queryParsed { return; }
      ghost var all := ScanFrom(params, query, 0);
      var pos, more := 0, true;
      while more
        invariant pos <= |query| && all == if more then ScanFrom(params, query, pos) else params
        decreases more, |query| - pos
      {
        pos, more := ScanPair(pos);
      }
      queryParsed := true;
    }
  }

  // ---- Scanning inverts encoding ---------------------------------------------------------

  function EncodedPair(p: Pair): Text { Encoded(p.0, true) + ([Equals] + Encoded(p.1, true)) }

  /** The query written for a list of pairs, from number `i` on. */
  function Joined(pairs: seq<Pair>, i: nat): Text
    requires i <= |pairs|
    decreases |pairs| - i
  {
    if i == |pairs| then []
    else if i + 1 == |pairs| then EncodedPair(pairs[i])
    else EncodedPair(pairs[i]) + ([Ampersand] + Joined(pairs, i + 1))
  }

  /** Encoded text has no '&', and an '=' only where the text had one. */
  lemma {:induction false} EncodedIsPlain(s: Text, n: nat)
    requires n <= |s|
    ensures Ampersand !in EncodedTo(s, n, true)
    ensures (forall i :: 0 <= i < n ==> s[i] != Equals) ==> Equals !in EncodedTo(s, n, true)
  {
    if n > 0 { EncodedIsPlain(s, n - 1); }
  }

  /** Searching skips a text without the character. */
  lemma FindAfter(s: Text, c: byte, pos: nat, a: Text)
    requires Occurs(s, pos, a) && c !in a && (pos + |a| == |s| || s[pos + |a|] == c)
    ensures Find(s, c, pos) == pos + |a|
  {
    forall i | pos <= i < pos + |a|
      ensures s[i] != c
    {
      assert s[i] == a[i - pos];
    }
  }

  lemma PairDecodes(s: Text, pos: nat, p: Pair)
    requires Occurs(s, pos, Encoded(p.0, true)) && Occurs(s, pos + |Encoded(p.0, true)| + 1, Encoded(p.1, true))
    ensures var key := pos + |Encoded(p.0, true)|; PairAt(s, pos, key, key + 1 + |Encoded(p.1, true)|) == p
  {
    OccursIsSlice(s, pos, Encoded(p.0, true));
    OccursIsSlice(s, pos + |Encoded(p.0, true)| + 1, Encoded(p.1, true));
    DecodeInvertsEncode(p.0, true, true);
    DecodeInvertsEncode(p.1, true, true);
  }

  /** The texts `a` and `b` of a pair lie in `s` from `pos` on, up to its end or an '&'. */
  ghost predicate PairIn(s: Text, pos: nat, a: Text, b: Text) {
    && Occurs(s, pos, a) && pos + |a| < |s| && s[pos + |a|] == Equals && Occurs(s, pos + |a| + 1, b)
    && (pos + |a| + 1 + |b| == |s| || s[pos + |a| + 1 + |b|] == Ampersand)
  }

  lemma PairFound(s: Text, pos: nat, a: Text, b: Text)
    requires PairIn(s, pos, a, b) && Equals !in a && Ampersand !in b
    ensures Find(s, Equals, pos) == pos + |a| && Find(s, Ampersand, pos + |a|) == pos + |a| + 1 + |b|
  {
    FindAfter(s, Equals, pos, a);
    FindAfter(s, Ampersand, pos + |a| + 1, b);
  }

  lemma ScanStep(m: Params, s: Text, pos: nat, key: nat, end: nat, p: Pair)
    requires pos <= key < end <= |s| && Find(s, Equals, pos) == key && Find(s, Ampersand, key) == end
             && PairAt(s, pos, key, end) == p
    ensures ScanFrom(m, s, pos) == if end == |s| then Insert(m, p) else ScanFrom(Insert(m, p), s, end + 1)
  {
  }

  lemma PlainPair(p: Pair)
    requires Equals !in p.0
    ensures Equals !in Encoded(p.0, true) && Ampersand !in Encoded(p.1, true)
  {
    EncodedIsPlain(p.0, |p.0|);
    EncodedIsPlain(p.1, |p.1|);
  }

  /** The scanner takes one written pair as that pair, and goes on after it. */
  lemma PairScans(m: Params, s: Text, pos: nat, p: Pair, a: Text, b: Text, end: nat)
    requires Equals !in p.0 && a == Encoded(p.0, true) && b == Encoded(p.1, true)
    requires PairIn(s, pos, a, b) && end == pos + |a| + 1 + |b|
    ensures ScanFrom(m, s, pos) == if end == |s| then Insert(m, p) else ScanFrom(Insert(m, p), s, end + 1)
  {
    PlainPair(p);
    PairFound(s, pos, a, b);
    PairDecodes(s, pos, p);
    ScanStep(m, s, pos, pos + |a|, end, p);
  }

  lemma SplitPair(s: Text, pos: nat, p: Pair)
    requires Occurs(s, pos, EncodedPair(p))
    requires var end := pos + |EncodedPair(p)|; end == |s| || s[end] == Ampersand
    ensures PairIn(s, pos, Encoded(p.0, true), Encoded(p.1, true))
  {
    var a, b := Encoded(p.0, true), Encoded(p.1, true);
    OccursSplit(s, pos, a, [Equals] + b);
    OccursSplit(s, pos + |a|, [Equals], b);
    assert s[pos + |a|] == [Equals][0];
  }

  /** Where the pair at `i` ends and what follows it. */
  lemma JoinedNext(pairs: seq<Pair>, i: nat, s: Text, pos: nat)
    requires i < |pairs| && Occurs(s, pos, Joined(pairs, i)) && pos + |Joined(pairs, i)| == |s|
    ensures var end := pos + |EncodedPair(pairs[i])|;
            && Occurs(s, pos, EncodedPair(pairs[i]))
            && (if i + 1 == |pairs| then end == |s|
                else
                  && end < |s| && s[end] == Ampersand && Occurs(s, end + 1, Joined(pairs, i + 1))
                  && end + 1 + |Joined(pairs, i + 1)| == |s|)
  {
    if i + 1 < |pairs| {
      var end := pos + |EncodedPair(pairs[i])|;
      OccursSplit(s, pos, EncodedPair(pairs[i]), [Ampersand] + Joined(pairs, i + 1));
      OccursSplit(s, end, [Ampersand], Joined(pairs, i + 1));
      assert s[end] == [Ampersand][0];
    }
  }

  /** Keys without '=': the scanner inserts the written pairs in order. */
  lemma {:induction false} ScanInvertsJoin(m: Params, pairs: seq<Pair>, i: nat, s: Text, pos: nat)
    requires i <= |pairs| && Occurs(s, pos, Joined(pairs, i)) && pos + |Joined(pairs, i)| == |s|
    requires forall j :: 0 <= j < |pairs| ==> Equals !in pairs[j].0
    ensures ScanFrom(InsertTo(m, pairs, i), s, pos) == InsertAll(m, pairs)
    decreases |pairs| - i
  {
    if i < |pairs| {
      var end := pos + |EncodedPair(pairs[i])|;
      JoinedNext(pairs, i, s, pos);
      SplitPair(s, pos, pairs[i]);
      PairScans(InsertTo(m, pairs, i), s, pos, pairs[i], Encoded(pairs[i].0, true), Encoded(pairs[i].1, true), end);
      if i + 1 < |pairs| { ScanInvertsJoin(m, pairs, i + 1, s, end + 1); }
    }
  }

  // ---- Keys with '=' ---------------------------------------------------------------------

  /** The encoder leaves '=' alone, so a key is cut at its first one and the rest goes to the value. */
  function Recut(p: Pair): (q: Pair)
    ensures Equals !in q.0 && (Equals !in p.0 ==> q == p)
  {
    var k := Find(p.0, Equals, 0);
    if k == |p.0| then p else (p.0[..k], p.0[k + 1..] + ([Equals] + p.1))
  }

  function Recuts(pairs: seq<Pair>): (r: seq<Pair>)
    ensures |r| == |pairs| && forall i :: 0 <= i < |r| ==> r[i] == Recut(pairs[i])
  {
    seq(|pairs|, i requires 0 <= i < |pairs| => Recut(pairs[i]))
  }

  lemma {:induction false} EncodedPrefix(a: Text, b: Text, n: nat)
    requires n <= |a|
    ensures EncodedTo(a + b, n, true) == EncodedTo(a, n, true)
  {
    if n > 0 { EncodedPrefix(a, b, n - 1); }
  }

  lemma {:induction false} EncodedAppend(a: Text, b: Text, n: nat)
    requires n <= |b|
    ensures EncodedTo(a + b, |a| + n, true) == Encoded(a, true) + EncodedTo(b, n, true)
  {
    if n == 0 {
      EncodedPrefix(a, b, |a|);
    } else {
      EncodedAppend(a, b, n - 1);
      assert (a + b)[|a| + n - 1] == b[n - 1];
    }
  }

  lemma EncodedAround(a: Text, b: Text)
    ensures Encoded(a + ([Equals] + b), true) == Encoded(a, true) + ([Equals] + Encoded(b, true))
  {
    EncodedAppend(a, [Equals] + b, |[Equals] + b|);
    EncodedAppend([Equals], b, |b|);
    assert Encoded([Equals], true) == [Equals] by { assert EncodedTo([Equals], 0, true) == []; }
  }

  lemma Regroup(x: Text, y: Text, z: Text)
    ensures (x + ([Equals] + y)) + ([Equals] + z) == x + ([Equals] + (y + ([Equals] + z)))
  {
  }

  lemma RecutSameText(p: Pair)
    ensures EncodedPair(Recut(p)) == EncodedPair(p)
  {
    var k := Find(p.0, Equals, 0);
    if k < |p.0| {
      var a, b := p.0[..k], p.0[k + 1..];
      assert p.0 == a + ([Equals] + b);
      EncodedAround(a, b);
      EncodedAround(b, p.1);
      Regroup(Encoded(a, true), Encoded(b, true), Encoded(p.1, true));
    }
  }

  lemma {:induction false} RecutsSameText(pairs: seq<Pair>, i: nat)
    requires i <= |pairs|
    ensures Joined(Recuts(pairs), i) == Joined(pairs, i)
    decreases |pairs| - i
  {
    if i < |pairs| {
      RecutSameText(pairs[i]);
      RecutsSameText(pairs, i + 1);
    }
  }

  /**
   Whatever the pairs, scanning the query written for them fills an empty map with their
   first-wins map, each key cut at its first '='; without '=' in the keys that is the list itself.
   */
  lemma QueryRoundTrip(pairs: seq<Pair>)
    ensures ScanFrom(map[], Joined(pairs, 0), 0) == InsertAll(map[], Recuts(pairs))
    ensures (forall i :: 0 <= i < |pairs| ==> Equals !in pairs[i].0) ==>
            ScanFrom(map[], Joined(pairs, 0), 0) == InsertAll(map[], pairs)
  {
    RecutsSameText(pairs, 0);
    ScanInvertsJoin(map[], Recuts(pairs), 0, Joined(pairs, 0), 0);
    if forall i :: 0 <= i < |pairs| ==> Equals !in pairs[i].0 {
      assert Recuts(pairs) == pairs;
    }
  }

  // ---- When the map is that of the list --------------------------------------------------

  lemma {:induction false} FoldHasEquals(s: Text, i: nat)
    requires i <= |s|
    ensures Equals in FoldFrom(s, i) ==> Equals in s[i..]
    ensures 0 !in s && Equals in s[i..] ==> Equals in FoldFrom(s, i)
    decreases |s| - i
  {
    if i < |s| {
      assert s[i..] == [s[i]] + s[i + 1..] && s[i] in s;
      FoldHasEquals(s, i + 1);
    }
  }

  /** A key cut behind what the comparator reads of it stays the same key. */
  lemma {:induction false} CutKeepsKey(s: Text, n: nat, i: nat)
    requires i <= n < |s| && s[n] == Equals && Equals !in FoldFrom(s, i)
    ensures FoldFrom(s[..n], i) == FoldFrom(s, i)
    decreases n - i
  {
    if i < n && s[i] != 0 {
      assert FoldFrom(s, i) == [Lower(s[i])] + FoldFrom(s, i + 1);
      CutKeepsKey(s, n, i + 1);
    }
  }

  lemma RecutKeepsKey(p: Pair)
    requires Equals !in Fold(p.0)
    ensures Fold(Recut(p).0) == Fold(p.0)
  {
    var k := Find(p.0, Equals, 0);
    if k < |p.0| { CutKeepsKey(p.0, k, 0); }
  }

  /** Every pair that is the first with its key has no '=' in it. */
  ghost predicate FirstsAreWhole(pairs: seq<Pair>) {
    forall i: nat :: i < |pairs| && FirstOf(pairs, i) ==> Equals !in pairs[i].0
  }

  /** Then no key shows an '=' to the comparator. */
  lemma WholeFirstsFold(pairs: seq<Pair>, j: nat)
    requires FirstsAreWhole(pairs) && j < |pairs|
    ensures Equals !in Fold(pairs[j].0)
  {
    KeyStays(pairs, |pairs|, j);
    var i := KeyFrom(pairs, |pairs|, Fold(pairs[j].0));
    FoldHasEquals(pairs[i].0, 0);
    assert pairs[i].0[0..] == pairs[i].0;
  }

  lemma SameInsert(m: Params, p: Pair, q: Pair)
    requires Fold(p.0) == Fold(q.0) && (p == q || Fold(p.0) in m)
    ensures Insert(m, p) == Insert(m, q)
  {
  }

  lemma {:induction false} SameMap(pairs: seq<Pair>, n: nat)
    requires FirstsAreWhole(pairs) && n <= |pairs|
    ensures InsertTo(map[], Recuts(pairs), n) == InsertTo(map[], pairs, n)
  {
    if n > 0 {
      SameMap(pairs, n - 1);
      WholeFirstsFold(pairs, n - 1);
      RecutKeepsKey(pairs[n - 1]);
      if Fold(pairs[n - 1].0) !in InsertTo(map[], pairs, n - 1) { NewIsFirst(pairs, n - 1); }
      SameInsert(InsertTo(map[], pairs, n - 1), Recuts(pairs)[n - 1], pairs[n - 1]);
    }
  }

  lemma NewIsFirst(pairs: seq<Pair>, n: nat)
    requires n < |pairs| && Fold(pairs[n].0) !in InsertTo(map[], pairs, n)
    ensures FirstOf(pairs, n)
  {
    forall j | 0 <= j < n
      ensures Fold(pairs[j].0) != Fold(pairs[n].0)
    {
      KeyStays(pairs, n, j);
    }
  }

  lemma {:induction false} FirstIsKept(pairs: seq<Pair>, n: nat, i: nat)
    requires i < n <= |pairs| && FirstOf(pairs, i)
    ensures Fold(pairs[i].0) in InsertTo(map[], pairs, n) && InsertTo(map[], pairs, n)[Fold(pairs[i].0)] == pairs[i]
    decreases n
  {
    if i < n - 1 {
      FirstIsKept(pairs, n - 1, i);
    } else if Fold(pairs[i].0) in InsertTo(map[], pairs, i) {
      var j := KeyFrom(pairs, i, Fold(pairs[i].0));
    }
  }

  /** A first key with '=' is in the map of the list as it is, and never in that of the cut pairs. */
  lemma OtherMap(pairs: seq<Pair>, i: nat)
    requires i < |pairs| && FirstOf(pairs, i) && Equals in pairs[i].0
    ensures InsertAll(map[], Recuts(pairs)) != InsertAll(map[], pairs)
  {
    var f := Fold(pairs[i].0);
    FirstIsKept(pairs, |pairs|, i);
    if f in InsertAll(map[], Recuts(pairs)) {
      var j := KeyFrom(Recuts(pairs), |pairs|, f);
      assert Equals !in Recut(pairs[j]).0;
    }
  }

  /**
   For all pairs: the scan gives the first-wins map of the list itself if and only if no key that
   is the first of its kind has an '='; for keys without NUL, if and only if no key has one.
   */
  lemma QueryRoundTripIff(pairs: seq<Pair>)
    ensures ScanFrom(map[], Joined(pairs, 0), 0) == InsertAll(map[], pairs) <==> FirstsAreWhole(pairs)
    ensures (forall i :: 0 <= i < |pairs| ==> 0 !in pairs[i].0) ==>
              (FirstsAreWhole(pairs) <==> forall i :: 0 <= i < |pairs| ==> Equals !in pairs[i].0)
  {
    QueryRoundTrip(pairs);
    if FirstsAreWhole(pairs) {
      SameMap(pairs, |pairs|);
      forall i | 0 <= i < |pairs| && 0 !in pairs[i].0
        ensures Equals !in pairs[i].0
      {
        WholeFirstsFold(pairs, i);
        FoldHasEquals(pairs[i].0, 0);
        assert pairs[i].0[0..] == pairs[i].0;
      }
    } else {
      var i: nat :| i < |pairs| && FirstOf(pairs, i) && Equals in pairs[i].0;
      OtherMap(pairs, i);
    }
  }

  /** The pair a=b, c comes back as a, b=c. */
  lemma KeyIsCut()
    ensures ScanFrom(map[], Joined([([97, Equals, 98], [99])], 0), 0) == map[[97] := ([97], [98, Equals, 99])]
  {
    var p: Pair := ([97, Equals, 98], [99]);
    assert Find(p.0, Equals, 0) == 1;
    assert p.0[..1] == [97] && p.0[2..] + ([Equals] + p.1) == [98, Equals, 99];
    QueryRoundTrip([p]);
    var q: Pair := ([97], [98, Equals, 99]);
    assert Recuts([p]) == [q];
    assert InsertTo(map[], [q], 0) == map[];
    assert FoldFrom([97], 1) == [];
    assert Fold([97]) == [97];
  }
}
