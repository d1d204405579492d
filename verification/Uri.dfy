/** URIs: made from a URL's fields, printed again, and the normal form that printing gives. */
module Uris {
  import opened Bytes
  import opened UrlStates
  import opened UrlParser

  datatype Uri = Uri(scheme: seq<byte>, userinfo: seq<byte>, host: seq<byte>, port: nat, path: seq<byte>,
      query: seq<byte>, fragment: seq<byte>)

  const Http: seq<byte> := [104, 116, 116, 112]
  const Https: seq<byte> := [104, 116, 116, 112, 115]
  const Ws: seq<byte> := [119, 115]

  /** The port a scheme stands for; other schemes have none, written as zero. */
  function DefaultPort(scheme: seq<byte>): nat {
    if scheme == Http || scheme == Ws then 80 else if scheme == Https then 443 else 0
  }

  /** The text of a field. */
  function Part(s: seq<byte>, fields: Fields, f: Field): seq<byte>
    requires f in fields ==> fields[f].0 + fields[f].1 <= |s|
  {
    if f in fields then s[fields[f].0..fields[f].0 + fields[f].1] else []
  }

  function UriOf(s: seq<byte>, u: ParsedUrl): Uri
    requires forall f :: f in u.fields ==> u.fields[f].0 + u.fields[f].1 <= |s|
  {
    var scheme := Part(s, u.fields, SCHEMA);
    Uri(scheme, Part(s, u.fields, USERINFO), Part(s, u.fields, HOST),
        if PORT in u.fields then u.port else DefaultPort(scheme),
        Part(s, u.fields, PATH), Part(s, u.fields, QUERY), Part(s, u.fields, FRAGMENT))
  }

  /** `Uri::Create`. */
  method Create(strict: bool, s: seq<byte>) returns (r: Option<Uri>, ghost lo: nat, ghost hi: nat, ghost u: ParsedUrl)
    ensures |s| <= MaxUrl && r.Some? ==>
              && Parsed(strict, false, s, lo, hi, u) && InBounds(u.fields, |s|)
              && r.value == UriOf(s, u)
    ensures |s| <= MaxUrl && r.None? ==> forall lo', hi', u' :: !Parsed(strict, false, s, lo', hi', u')
  {
    u := ParsedUrl(map[], 0);
    var parsed;
    parsed, lo, hi := ParseUrl(strict, s, false);
    if parsed.None? { return None, lo, hi, u; }
    u := parsed.value;
    var fields := parsed.value.fields;
    var uri := Uri([], [], [], 0, [], [], []);
    if SCHEMA in fields { uri := uri.(scheme := Part(s, fields, SCHEMA)); }
    if USERINFO in fields { uri := uri.(userinfo := Part(s, fields, USERINFO)); }
    if HOST in fields { uri := uri.(host := Part(s, fields, HOST)); }
    if PORT in fields {
      uri := uri.(port := parsed.value.port);
    } else if uri.scheme == Http || uri.scheme == Ws {
      uri := uri.(port := 80);
    } else if uri.scheme == Https {
      uri := uri.(port := 443);
    }
    if PATH in fields { uri := uri.(path := Part(s, fields, PATH)); }
    if QUERY in fields { uri := uri.(query := Part(s, fields, QUERY)); }
    if FRAGMENT in fields { uri := uri.(fragment := Part(s, fields, FRAGMENT)); }
    r := Some(uri);
  }

  function GetPath(u: Uri): (p: seq<byte>)
    ensures p != []
  {
    if u.path == [] then [Slash] else u.path
  }

  predicate IsDefaultPort(u: Uri) {
    if u.scheme == Http || u.scheme == Ws then u.port == 80 else if u.scheme == Https then u.port == 443 else false
  }

  /** std::to_string. */
  function DecimalText(n: nat): (s: seq<byte>)
    ensures |s| >= 1 && forall k :: 0 <= k < |s| ==> IsNum(s[k])
  {
    if n < 10 then [48 + n] else DecimalText(n / 10) + [48 + n % 10]
  }

  function UserText(u: Uri): seq<byte> { if u.userinfo == [] then [] else u.userinfo + [At] }

  function PortText(u: Uri): seq<byte> { if IsDefaultPort(u) then [] else [Colon] + DecimalText(u.port) }

  function Prefixed(mark: byte, text: seq<byte>): seq<byte> { if text == [] then [] else [mark] + text }

  function ToString(u: Uri): seq<byte> {
    u.scheme + ([Colon, Slash, Slash] + (UserText(u) + (u.host + (PortText(u) +
      (GetPath(u) + (Prefixed(Question, u.query) + Prefixed(Hash, u.fragment)))))))
  }

  // ---- What the parts of a URL are made of -----------------------------------------------

  /** A URI whose printed form is a URL. */
  predicate Printable(strict: bool, u: Uri) {
    && u.scheme != [] && (forall k :: 0 <= k < |u.scheme| ==> IsAlpha(u.scheme[k]))
    && (forall k :: 0 <= k < |u.userinfo| ==> IsUserinfoChar(u.userinfo[k]))
    && u.host != [] && (forall k :: 0 <= k < |u.host| ==> IsUserinfoChar(u.host[k]))
    && u.port <= 0xFFFF
    && GetPath(u)[0] == Slash
    && (forall k :: 0 <= k < |GetPath(u)| ==> IsUrlChar(strict, GetPath(u)[k]) && !IsBlank(strict, GetPath(u)[k]))
    && (forall k :: 0 <= k < |u.query| ==>
           && (IsUrlChar(strict, u.query[k]) || u.query[k] == Question)
           && !IsBlank(strict, u.query[k]))
    && (forall k :: 0 <= k < |u.fragment| ==>
          && (IsUrlChar(strict, u.fragment[k]) || u.fragment[k] == Question || u.fragment[k] == Hash)
          && !IsBlank(strict, u.fragment[k]))
    && (u.fragment != [] ==> u.fragment[0] != Hash)
  }

  /** Whether every byte of the host is a host character; a bracketed address need not be. */
  predicate PlainHost(strict: bool, u: Uri) { forall k :: 0 <= k < |u.host| ==> IsHostChar(strict, u.host[k]) }

  lemma UrlByte(strict: bool, q: UrlState, c: byte)
    ensures UrlNext(strict, q, c) != Dead ==> !IsBlank(strict, c)
    ensures UrlNext(strict, q, c) == Schema ==> IsAlpha(c)
    ensures UrlNext(strict, q, c) == Path ==> IsUrlChar(strict, c) && (q == Path || c == Slash || q == SpacesBeforeUrl)
    ensures UrlNext(strict, q, c) == Query ==> IsUrlChar(strict, c) || c == Question
    ensures UrlNext(strict, q, c) == Fragment ==>
            (IsUrlChar(strict, c) || c == Question || (c == Hash && q == Fragment))
    ensures UrlNext(strict, q, c) == Path && q == SpacesBeforeUrl ==> c == Slash || c == 42
  {
  }

  lemma HostByte(strict: bool, q: HostState, c: byte)
    ensures HostField(HostNext(strict, q, c)).Some? ==> IsUserinfoChar(c)
  {
  }

  /** A byte of a field is marked with it. */
  lemma FieldByte(at: nat -> Option<Field>, p: nat, fields: Fields, f: Field, i: nat)
    requires Marked(at, p, fields) && f in fields && i < fields[f].1
    ensures fields[f].0 + fields[f].1 <= p && at(fields[f].0 + i) == Some(f)
  {
    assert Covers(at, p, fields, f);
  }

  /** The mark of byte `k` comes from the host machine inside the server part and from the URL machine outside. */
  lemma MarkIs(strict: bool, s: seq<byte>, lo: nat, hi: nat, k: nat, f: Field)
    requires HostSpan(strict, SpacesBeforeUrl, s, lo, hi) && k < |s|
    requires WholeMap(strict, SpacesBeforeUrl, s, lo, hi)(k) == Some(f)
    ensures lo <= k < hi <==> f == USERINFO || f == HOST || f == PORT
    ensures if lo <= k < hi then HostField(HostAt(strict, HostBegin(strict, SpacesBeforeUrl, s), s, lo, k + 1))
            == Some(f)
            else UrlField(UrlAt(strict, SpacesBeforeUrl, s, k + 1)) == Some(f)
  {
    assert lo <= k < hi <==> FieldAt(strict, SpacesBeforeUrl, s, k) == Some(HOST);
  }

  /** Byte `i` of the field `f`: where it is, and that the machines put it there. */
  lemma PartByte(strict: bool, s: seq<byte>, lo: nat, hi: nat, u: ParsedUrl, f: Field, i: nat) returns (k: nat)
    requires Parsed(strict, false, s, lo, hi, u) && f in u.fields && i < u.fields[f].1
    ensures k == u.fields[f].0 + i < |s| && u.fields[f].0 + u.fields[f].1 <= |s| && Part(s, u.fields, f)[i] == s[k]
    ensures UrlAt(strict, SpacesBeforeUrl, s, k + 1) != Dead
    ensures f != USERINFO && f != HOST && f != PORT ==> UrlField(UrlAt(strict, SpacesBeforeUrl, s, k + 1)) == Some(f)
    ensures f == USERINFO || f == HOST || f == PORT ==>
              lo <= k < hi && HostField(HostAt(strict, HostBegin(strict, SpacesBeforeUrl, s), s, lo, k + 1)) == Some(f)
  {
    k := u.fields[f].0 + i;
    FieldByte(WholeMap(strict, SpacesBeforeUrl, s, lo, hi), |s|, u.fields, f, i);
    MarkIs(strict, s, lo, hi, k, f);
    if UrlAt(strict, SpacesBeforeUrl, s, k + 1) == Dead { DeadStays(strict, SpacesBeforeUrl, s, k + 1, |s|); }
  }

  lemma SchemeAndServer(strict: bool, s: seq<byte>, lo: nat, hi: nat, u: ParsedUrl, f: Field, i: nat)
    requires Parsed(strict, false, s, lo, hi, u) && f in u.fields && i < u.fields[f].1
    ensures u.fields[f].0 + u.fields[f].1 <= |s|
    ensures f == SCHEMA ==> IsAlpha(Part(s, u.fields, f)[i])
    ensures f == USERINFO || f == HOST ==> IsUserinfoChar(Part(s, u.fields, f)[i])
  {
    var k := PartByte(strict, s, lo, hi, u, f, i);
    UrlByte(strict, UrlAt(strict, SpacesBeforeUrl, s, k), s[k]);
    if f == USERINFO || f == HOST {
      HostByte(strict, HostAt(strict, HostBegin(strict, SpacesBeforeUrl, s), s, lo, k), s[k]);
    }
  }

  lemma PathAndMore(strict: bool, s: seq<byte>, lo: nat, hi: nat, u: ParsedUrl, f: Field, i: nat)
    requires Parsed(strict, false, s, lo, hi, u) && f in u.fields && i < u.fields[f].1
             && (f == PATH || f == QUERY || f == FRAGMENT)
    ensures u.fields[f].0 + u.fields[f].1 <= |s|
    ensures var c := Part(s, u.fields, f)[i];
            && !IsBlank(strict, c)
            && (f == PATH ==> IsUrlChar(strict, c))
            && (f == QUERY ==> IsUrlChar(strict, c) || c == Question)
            && (f == FRAGMENT ==> IsUrlChar(strict, c) || c == Question || c == Hash)
  {
    var k := PartByte(strict, s, lo, hi, u, f, i);
    UrlByte(strict, UrlAt(strict, SpacesBeforeUrl, s, k), s[k]);
  }

  /** The state before a field starts is not the field's own. */
  lemma FirstByte(strict: bool, s: seq<byte>, lo: nat, hi: nat, u: ParsedUrl, f: Field)
    requires Parsed(strict, false, s, lo, hi, u) && f in u.fields && SCHEMA in u.fields && (f == PATH || f == FRAGMENT)
    ensures 0 < u.fields[f].1 && u.fields[f].0 + u.fields[f].1 <= |s|
    ensures f == PATH ==> Part(s, u.fields, f)[0] == Slash
    ensures f == FRAGMENT ==> Part(s, u.fields, f)[0] != Hash
  {
    var whole := WholeMap(strict, SpacesBeforeUrl, s, lo, hi);
    assert Covers(whole, |s|, u.fields, f) && Covers(whole, |s|, u.fields, SCHEMA);
    InOrder(strict, false, s, lo, hi, u, SCHEMA, f);
    var k := PartByte(strict, s, lo, hi, u, f, 0);
    var q := UrlAt(strict, SpacesBeforeUrl, s, k);
    assert whole(k - 1) != Some(f);
    assert UrlField(q) != Some(f) by {
      assert FieldAt(strict, SpacesBeforeUrl, s, k - 1) == UrlField(q);
      assert !(lo <= k - 1 < hi) || UrlField(q) == Some(HOST);
    }
    UrlByte(strict, q, s[k]);
    NeverBack(strict, UrlAt(strict, SpacesBeforeUrl, s, k - 1), s[k - 1]);
  }

  lemma NeverBack(strict: bool, q: UrlState, c: byte)
    ensures UrlNext(strict, q, c) != SpacesBeforeUrl
  {
  }

  /** A host machine that got past the host has read a byte of it. */
  lemma {:induction false} HasHost(strict: bool, start: HostState, s: seq<byte>, lo: nat, k: nat) returns (j: nat)
    requires lo <= k <= |s| && (start == UserinfoStart || start == HostStart)
    requires 4 <= HostRank(HostAt(strict, start, s, lo, k)) < 8
    ensures lo <= j < k && HostField(HostAt(strict, start, s, lo, j + 1)) == Some(HOST)
    decreases k
  {
    if HostField(HostAt(strict, start, s, lo, k)) != Some(HOST) {
      j := HasHost(strict, start, s, lo, k - 1);
    } else {
      j := k - 1;
    }
  }

  lemma HostIsSet(strict: bool, s: seq<byte>, lo: nat, hi: nat, u: ParsedUrl)
    requires Parsed(strict, false, s, lo, hi, u) && SCHEMA in u.fields
    ensures HOST in u.fields
  {
    var begin := HostBegin(strict, SpacesBeforeUrl, s);
    var j := HasHost(strict, begin, s, lo, hi);
    Covered(WholeMap(strict, SpacesBeforeUrl, s, lo, hi), |s|, u.fields, j);
  }

  /** Every part of an accepted URL with a scheme can be printed. */
  lemma PartsPrintable(strict: bool, s: seq<byte>, lo: nat, hi: nat, u: ParsedUrl)
    requires Parsed(strict, false, s, lo, hi, u) && SCHEMA in u.fields
    ensures (forall f :: f in u.fields ==> u.fields[f].0 + u.fields[f].1 <= |s|) && Printable(strict, UriOf(s, u))
  {
    FieldPartition(strict, false, s, lo, hi, u);
    HostIsSet(strict, s, lo, hi, u);
    forall f, i: nat | f in u.fields && i < u.fields[f].1 && (f == SCHEMA || f == USERINFO || f == HOST)
      ensures f == SCHEMA ==> IsAlpha(Part(s, u.fields, f)[i])
      ensures f == USERINFO || f == HOST ==> IsUserinfoChar(Part(s, u.fields, f)[i])
    {
      SchemeAndServer(strict, s, lo, hi, u, f, i);
    }
    PrintableRest(strict, s, lo, hi, u);
    DefaultPortFits(Part(s, u.fields, SCHEMA));
  }

  lemma DefaultPortFits(scheme: seq<byte>)
    ensures DefaultPort(scheme) <= 0xFFFF
  {
  }

  lemma PrintableRest(strict: bool, s: seq<byte>, lo: nat, hi: nat, u: ParsedUrl)
    requires Parsed(strict, false, s, lo, hi, u) && SCHEMA in u.fields
    requires forall f :: f in u.fields ==> u.fields[f].0 + u.fields[f].1 <= |s|
    ensures var p := Part(s, u.fields, PATH);
            p != [] ==> p[0] == Slash && forall k :: 0 <= k < |p| ==> IsUrlChar(strict, p[k]) && !IsBlank(strict, p[k])
    ensures var p := Part(s, u.fields, QUERY);
            forall k :: 0 <= k < |p| ==> (IsUrlChar(strict, p[k]) || p[k] == Question) && !IsBlank(strict, p[k])
    ensures var p := Part(s, u.fields, FRAGMENT);
            && (forall k :: 0 <= k < |p| ==>
                   && (IsUrlChar(strict, p[k]) || p[k] == Question || p[k] == Hash)
                   && !IsBlank(strict, p[k]))
            && (p != [] ==> p[0] != Hash)
  {
    if PATH in u.fields {
      FirstByte(strict, s, lo, hi, u, PATH);
      forall i: nat | i < u.fields[PATH].1
        ensures IsUrlChar(strict, Part(s, u.fields, PATH)[i]) && !IsBlank(strict, Part(s, u.fields, PATH)[i])
      {
        PathAndMore(strict, s, lo, hi, u, PATH, i);
      }
    }
    if QUERY in u.fields {
      forall i: nat | i < u.fields[QUERY].1
        ensures (IsUrlChar(strict, Part(s, u.fields, QUERY)[i]) || Part(s, u.fields, QUERY)[i] == Question)
                && !IsBlank(strict, Part(s, u.fields, QUERY)[i])
      {
        PathAndMore(strict, s, lo, hi, u, QUERY, i);
      }
    }
    if FRAGMENT in u.fields {
      FirstByte(strict, s, lo, hi, u, FRAGMENT);
      forall i: nat | i < u.fields[FRAGMENT].1
        ensures (IsUrlChar(strict, Part(s, u.fields, FRAGMENT)[i]) || Part(s, u.fields, FRAGMENT)[i] == Question
                || Part(s, u.fields, FRAGMENT)[i] == Hash)
        ensures !IsBlank(strict, Part(s, u.fields, FRAGMENT)[i])
      {
        PathAndMore(strict, s, lo, hi, u, FRAGMENT, i);
      }
    }
  }

  // ---- Reading the printed text ----------------------------------------------------------

  /** The machine enters `q` at `lo` and stays in it up to `hi`. */
  lemma {:induction false} Stay(strict: bool, s: seq<byte>, lo: nat, hi: nat, q: UrlState)
    requires lo < hi <= |s| && UrlNext(strict, UrlAt(strict, SpacesBeforeUrl, s, lo), s[lo]) == q
    requires forall k :: lo < k < hi ==> UrlNext(strict, q, s[k]) == q
    ensures forall k :: lo < k <= hi ==> UrlAt(strict, SpacesBeforeUrl, s, k) == q
    decreases hi
  {
    if lo + 1 < hi { Stay(strict, s, lo, hi - 1, q); }
  }

  lemma {:induction false} HostStay(strict: bool, begin: HostState, s: seq<byte>, from: nat, lo: nat, hi: nat,
      q: HostState)
    requires from <= lo < hi <= |s| && HostNext(strict, HostAt(strict, begin, s, from, lo), s[lo]) == q
    requires forall k :: lo < k < hi ==> HostNext(strict, q, s[k]) == q
    ensures forall k :: lo < k <= hi ==> HostAt(strict, begin, s, from, k) == q
    decreases hi
  {
    if lo + 1 < hi { HostStay(strict, begin, s, from, lo, hi - 1, q); }
  }

  /** Where the parts of the printed text end. */
  datatype Layout = Layout(scheme: nat, server: nat, user: nat, host: nat, port: nat, path: nat, query: nat, end: nat)

  function LayoutOf(u: Uri): Layout {
    var server := |u.scheme| + 3;
    var user := server + |UserText(u)|;
    var host := user + |u.host|;
    var port := host + |PortText(u)|;
    var path := port + |GetPath(u)|;
    var query := path + |Prefixed(Question, u.query)|;
    Layout(|u.scheme|, server, user, host, port, path, query, query + |Prefixed(Hash, u.fragment)|)
  }

  /** `text` is what `s` holds between `lo` and `hi`. */
  ghost predicate Holds(s: seq<byte>, lo: nat, hi: nat, text: seq<byte>) {
    lo <= hi <= |s| && s[lo..hi] == text
  }

  lemma HoldsBytes(s: seq<byte>, lo: nat, hi: nat, text: seq<byte>)
    requires Holds(s, lo, hi, text)
    ensures hi == lo + |text| && Occurs(s, lo, text)
  {
    assert forall j :: 0 <= j < |text| ==> s[lo + j] == s[lo..hi][j];
  }

  /** The pieces a text is printed from. */
  datatype Piece =
    | SchemePiece | SlashesPiece | UserPiece | HostPiece | PortPiece | PathPiece | QueryPiece | FragmentPiece

  ghost predicate PieceAt(s: seq<byte>, u: Uri, l: Layout, p: Piece) {
    match p
    case SchemePiece => Holds(s, 0, l.scheme, u.scheme)
    case SlashesPiece => Holds(s, l.scheme, l.server, [Colon, Slash, Slash])
    case UserPiece => Holds(s, l.server, l.user, UserText(u))
    case HostPiece => Holds(s, l.user, l.host, u.host)
    case PortPiece => Holds(s, l.host, l.port, PortText(u))
    case PathPiece => Holds(s, l.port, l.path, GetPath(u))
    case QueryPiece => Holds(s, l.path, l.query, Prefixed(Question, u.query))
    case FragmentPiece => Holds(s, l.query, l.end, Prefixed(Hash, u.fragment))
  }

  /** The ends follow each other; a piece takes room exactly when it is printed. */
  ghost predicate Ascends(u: Uri, l: Layout) {
    && l.scheme + 3 == l.server <= l.user <= l.host <= l.port < l.path <= l.query <= l.end
    && (l.user < l.host <==> u.host != [])
    && (if u.userinfo != [] then l.server + 1 < l.user else l.server == l.user)
    && (if IsDefaultPort(u) then l.host == l.port else l.host + 1 < l.port)
    && (if u.query != [] then l.path + 1 < l.query else l.path == l.query)
    && (if u.fragment != [] then l.query + 1 < l.end else l.query == l.end)
  }

  lemma LayoutAscends(u: Uri)
    ensures Ascends(u, LayoutOf(u))
  {
  }

  /** The pieces lie in `s` where the layout says. */
  ghost predicate Printed(s: seq<byte>, u: Uri, l: Layout) {
    Ascends(u, l) && |s| == l.end && forall p :: PieceAt(s, u, l, p)
  }

  /** What is printed after the server part. */
  function TailText(u: Uri): seq<byte> { GetPath(u) + (Prefixed(Question, u.query) + Prefixed(Hash, u.fragment)) }

  /** When the text from `at` on is `a + b`, both are where they should be. */
  lemma Peel(s: seq<byte>, at: nat, a: seq<byte>, b: seq<byte>)
    requires at <= |s| && s[at..] == a + b
    ensures Holds(s, at, at + |a|, a) && at + |a| + |b| == |s| && s[at + |a|..] == b
  {
    assert s[at..at + |a|] == s[at..][..|a|];
    assert s[at + |a|..] == s[at..][|a|..];
  }

  lemma PrintedTail(s: seq<byte>, u: Uri, l: Layout)
    requires l == LayoutOf(u) && l.port <= |s| && s[l.port..] == TailText(u)
    ensures |s| == l.end && Holds(s, l.port, l.path, GetPath(u))
            && Holds(s, l.path, l.query, Prefixed(Question, u.query))
    ensures Holds(s, l.query, l.end, Prefixed(Hash, u.fragment))
  {
    var f, q := Prefixed(Hash, u.fragment), Prefixed(Question, u.query);
    Peel(s, l.port, GetPath(u), q + f);
    Peel(s, l.path, q, f);
    assert f + [] == f;
    Peel(s, l.query, f, []);
  }

  lemma PrintedServer(s: seq<byte>, u: Uri, l: Layout, tail: seq<byte>)
    requires l == LayoutOf(u) && l.server <= |s| && s[l.server..] == UserText(u) + (u.host + (PortText(u) + tail))
    ensures Holds(s, l.server, l.user, UserText(u)) && Holds(s, l.user, l.host, u.host)
            && Holds(s, l.host, l.port, PortText(u))
    ensures l.port <= |s| && s[l.port..] == tail
  {
    Peel(s, l.server, UserText(u), u.host + (PortText(u) + tail));
    Peel(s, l.user, u.host, PortText(u) + tail);
    Peel(s, l.host, PortText(u), tail);
  }

  lemma PrintedScheme(s: seq<byte>, u: Uri, l: Layout, rest: seq<byte>)
    requires l == LayoutOf(u) && s == u.scheme + ([Colon, Slash, Slash] + rest)
    ensures Holds(s, 0, l.scheme, u.scheme) && Holds(s, l.scheme, l.server, [Colon, Slash, Slash])
    ensures l.server <= |s| && s[l.server..] == rest
  {
    assert s[0..] == s;
    Peel(s, 0, u.scheme, [Colon, Slash, Slash] + rest);
    Peel(s, l.scheme, [Colon, Slash, Slash], rest);
  }

  lemma PrintedText(u: Uri)
    ensures Printed(ToString(u), u, LayoutOf(u))
  {
    var s, l := ToString(u), LayoutOf(u);
    PrintedScheme(s, u, l, UserText(u) + (u.host + (PortText(u) + TailText(u))));
    PrintedServer(s, u, l, TailText(u));
    PrintedTail(s, u, l);
    assert forall p :: PieceAt(s, u, l, p);
    LayoutAscends(u);
  }

  lemma SchemeFrom(strict: bool, s: seq<byte>, scheme: seq<byte>)
    requires Holds(s, 0, |scheme|, scheme) && scheme != [] && forall k :: 0 <= k < |scheme| ==> IsAlpha(scheme[k])
    ensures forall k :: 0 < k <= |scheme| ==> UrlAt(strict, SpacesBeforeUrl, s, k) == Schema
  {
    HoldsBytes(s, 0, |scheme|, scheme);
    forall k | 0 <= k < |scheme|
      ensures IsAlpha(s[k])
    {
      assert s[0 + k] == scheme[k];
    }
    assert UrlAt(strict, SpacesBeforeUrl, s, 0) == SpacesBeforeUrl;
    Stay(strict, s, 0, |scheme|, Schema);
  }

  lemma SlashesFrom(strict: bool, s: seq<byte>, at: nat, marks: seq<byte>)
    requires Holds(s, at, at + 3, marks) && marks == [Colon, Slash, Slash]
             && UrlAt(strict, SpacesBeforeUrl, s, at) == Schema
    ensures UrlAt(strict, SpacesBeforeUrl, s, at + 1) == SchemaSlash
            && UrlAt(strict, SpacesBeforeUrl, s, at + 2) == SchemaSlashSlash
    ensures UrlAt(strict, SpacesBeforeUrl, s, at + 3) == ServerStart
  {
    HoldsBytes(s, at, at + 3, marks);
    assert s[at + 0] == marks[0] && s[at + 1] == marks[1] && s[at + 2] == marks[2];
  }

  lemma SchemeStates(strict: bool, s: seq<byte>, u: Uri, l: Layout)
    requires Printable(strict, u) && Printed(s, u, l)
    ensures forall k :: 0 < k <= l.scheme ==> UrlAt(strict, SpacesBeforeUrl, s, k) == Schema
    ensures l.server == l.scheme + 3
    ensures UrlAt(strict, SpacesBeforeUrl, s, l.scheme + 1) == SchemaSlash
            && UrlAt(strict, SpacesBeforeUrl, s, l.scheme + 2) == SchemaSlashSlash
    ensures UrlAt(strict, SpacesBeforeUrl, s, l.server) == ServerStart
  {
    assert PieceAt(s, u, l, SchemePiece) && PieceAt(s, u, l, SlashesPiece);
    SchemeFrom(strict, s, u.scheme);
    SlashesFrom(strict, s, l.scheme, [Colon, Slash, Slash]);
  }

  /** The text between the userinfo and the path is made of server characters. */
  lemma ServerChars(s: seq<byte>, u: Uri, l: Layout)
    requires Printed(s, u, l) && (forall k :: 0 <= k < |u.host| ==> IsUserinfoChar(u.host[k]))
    ensures l.user <= l.host <= l.port <= |s| && forall k :: l.user <= k < l.port ==> IsUserinfoChar(s[k])
  {
    assert PieceAt(s, u, l, HostPiece) && PieceAt(s, u, l, PortPiece);
    CharsHeld(s, l.user, l.host, u.host);
    CharsHeld(s, l.host, l.port, PortText(u));
  }

  lemma CharsHeld(s: seq<byte>, lo: nat, hi: nat, text: seq<byte>)
    requires Holds(s, lo, hi, text) && forall k :: 0 <= k < |text| ==> IsUserinfoChar(text[k])
    ensures forall k :: lo <= k < hi ==> IsUserinfoChar(s[k])
  {
    forall k | lo <= k < hi
      ensures IsUserinfoChar(s[k])
    {
      assert s[k] == text[k - lo];
    }
  }

  lemma InServerState(strict: bool, q: UrlState, c: byte)
    requires (q == ServerStart || q == Server || q == ServerWithAt) && IsUserinfoChar(c)
    ensures UrlNext(strict, q, c) == Server
  {
  }

  lemma ServerStay(strict: bool, s: seq<byte>, lo: nat, hi: nat)
    requires lo < hi <= |s| && forall k :: lo <= k < hi ==> IsUserinfoChar(s[k])
    requires var q := UrlAt(strict, SpacesBeforeUrl, s, lo); q == ServerStart || q == Server || q == ServerWithAt
    ensures forall k :: lo < k <= hi ==> UrlAt(strict, SpacesBeforeUrl, s, k) == Server
  {
    InServerState(strict, UrlAt(strict, SpacesBeforeUrl, s, lo), s[lo]);
    forall k | lo < k < hi
      ensures UrlNext(strict, Server, s[k]) == Server
    {
      InServerState(strict, Server, s[k]);
    }
    Stay(strict, s, lo, hi, Server);
  }

  lemma UserFrom(strict: bool, s: seq<byte>, at: nat, user: seq<byte>, text: seq<byte>)
    requires Holds(s, at, at + |text|, text) && text == user + [At]
             && UrlAt(strict, SpacesBeforeUrl, s, at) == ServerStart
    requires user != [] && forall k :: 0 <= k < |user| ==> IsUserinfoChar(user[k])
    ensures at + |user| + 1 <= |s|
    ensures forall k :: at < k <= at + |user| ==> UrlAt(strict, SpacesBeforeUrl, s, k) == Server
    ensures UrlAt(strict, SpacesBeforeUrl, s, at + |user| + 1) == ServerWithAt
  {
    HoldsBytes(s, at, at + |text|, text);
    forall k | at <= k < at + |user|
      ensures IsUserinfoChar(s[k])
    {
      assert s[at + (k - at)] == text[k - at] == user[k - at];
    }
    ServerStay(strict, s, at, at + |user|);
    assert s[at + |user|] == text[|user|] == At;
  }

  lemma UserStates(strict: bool, s: seq<byte>, u: Uri, l: Layout)
    requires Printable(strict, u) && Printed(s, u, l) && u.userinfo != []
    ensures l.user == l.server + |u.userinfo| + 1 <= |s|
    ensures forall k :: l.server < k < l.user ==> UrlAt(strict, SpacesBeforeUrl, s, k) == Server
    ensures UrlAt(strict, SpacesBeforeUrl, s, l.user) == ServerWithAt
  {
    SchemeStates(strict, s, u, l);
    assert PieceAt(s, u, l, UserPiece);
    UserFrom(strict, s, l.server, u.userinfo, UserText(u));
  }

  lemma ServerStates(strict: bool, s: seq<byte>, u: Uri, l: Layout)
    requires Printable(strict, u) && Printed(s, u, l)
    ensures l.server <= l.user < l.port <= |s|
    ensures forall k :: l.server < k < l.user ==> UrlAt(strict, SpacesBeforeUrl, s, k) == Server
    ensures l.server < l.user <==> u.userinfo != []
    ensures l.server < l.user ==> UrlAt(strict, SpacesBeforeUrl, s, l.user) == ServerWithAt
    ensures forall k :: l.user < k <= l.port ==> UrlAt(strict, SpacesBeforeUrl, s, k) == Server
  {
    SchemeStates(strict, s, u, l);
    ServerChars(s, u, l);
    if u.userinfo != [] { UserStates(strict, s, u, l); }
    ServerStay(strict, s, l.user, l.port);
  }

  lemma PathFrom(strict: bool, s: seq<byte>, at: nat, path: seq<byte>)
    requires Holds(s, at, at + |path|, path) && path != [] && path[0] == Slash
    requires forall k :: 0 <= k < |path| ==> IsUrlChar(strict, path[k]) && !IsBlank(strict, path[k])
    requires UrlAt(strict, SpacesBeforeUrl, s, at) == Server
    ensures forall k :: at < k <= at + |path| ==> UrlAt(strict, SpacesBeforeUrl, s, k) == Path
  {
    HoldsBytes(s, at, at + |path|, path);
    forall k | at <= k < at + |path|
      ensures IsUrlChar(strict, s[k]) && !IsBlank(strict, s[k]) && (k == at ==> s[k] == Slash)
    {
      assert s[at + (k - at)] == path[k - at];
    }
    Stay(strict, s, at, at + |path|, Path);
  }

  lemma PathStates(strict: bool, s: seq<byte>, u: Uri, l: Layout)
    requires Printable(strict, u) && Printed(s, u, l)
    ensures l.port < l.path <= |s| && forall k :: l.port < k <= l.path ==> UrlAt(strict, SpacesBeforeUrl, s, k) == Path
  {
    ServerStates(strict, s, u, l);
    assert PieceAt(s, u, l, PathPiece);
    PathFrom(strict, s, l.port, GetPath(u));
  }

  lemma QueryFrom(strict: bool, s: seq<byte>, at: nat, query: seq<byte>, text: seq<byte>)
    requires Holds(s, at, at + |text|, text) && text == [Question] + query && query != []
             && UrlAt(strict, SpacesBeforeUrl, s, at) == Path
    requires forall k :: 0 <= k < |query| ==>
               && (IsUrlChar(strict, query[k]) || query[k] == Question)
               && !IsBlank(strict, query[k])
    ensures UrlAt(strict, SpacesBeforeUrl, s, at + 1) == QueryStart
    ensures forall k :: at + 1 < k <= at + 1 + |query| ==> UrlAt(strict, SpacesBeforeUrl, s, k) == Query
  {
    HoldsBytes(s, at, at + |text|, text);
    assert s[at + 0] == text[0];
    forall k | at < k <= at + |query|
      ensures (IsUrlChar(strict, s[k]) || s[k] == Question) && !IsBlank(strict, s[k])
    {
      assert s[at + (k - at)] == text[k - at] == query[k - at - 1];
    }
    Stay(strict, s, at + 1, at + 1 + |query|, Query);
  }

  lemma QueryStates(strict: bool, s: seq<byte>, u: Uri, l: Layout)
    requires Printable(strict, u) && Printed(s, u, l) && u.query != []
    ensures l.path + 1 < l.query <= |s| && UrlAt(strict, SpacesBeforeUrl, s, l.path + 1) == QueryStart
    ensures forall k :: l.path + 1 < k <= l.query ==> UrlAt(strict, SpacesBeforeUrl, s, k) == Query
  {
    PathStates(strict, s, u, l);
    assert PieceAt(s, u, l, QueryPiece);
    QueryFrom(strict, s, l.path, u.query, Prefixed(Question, u.query));
  }

  lemma FragmentFrom(strict: bool, s: seq<byte>, at: nat, fragment: seq<byte>, text: seq<byte>)
    requires Holds(s, at, at + |text|, text) && text == [Hash] + fragment && fragment != [] && fragment[0] != Hash
    requires UrlAt(strict, SpacesBeforeUrl, s, at) == Path || UrlAt(strict, SpacesBeforeUrl, s, at) == Query
    requires forall k :: 0 <= k < |fragment| ==>
               (IsUrlChar(strict, fragment[k]) || fragment[k] == Question || fragment[k] == Hash)
                   && !IsBlank(strict, fragment[k])
    ensures UrlAt(strict, SpacesBeforeUrl, s, at + 1) == FragmentStart
    ensures forall k :: at + 1 < k <= at + 1 + |fragment| ==> UrlAt(strict, SpacesBeforeUrl, s, k) == Fragment
  {
    HoldsBytes(s, at, at + |text|, text);
    assert s[at + 0] == text[0];
    forall k | at < k <= at + |fragment|
      ensures (IsUrlChar(strict, s[k]) || s[k] == Question || s[k] == Hash) && !IsBlank(strict, s[k])
              && (k == at + 1 ==> s[k] != Hash)
    {
      assert s[at + (k - at)] == text[k - at] == fragment[k - at - 1];
    }
    Stay(strict, s, at + 1, at + 1 + |fragment|, Fragment);
  }

  lemma FragmentStates(strict: bool, s: seq<byte>, u: Uri, l: Layout)
    requires Printable(strict, u) && Printed(s, u, l) && u.fragment != []
    ensures l.query + 1 < l.end == |s| && UrlAt(strict, SpacesBeforeUrl, s, l.query + 1) == FragmentStart
    ensures forall k :: l.query + 1 < k <= l.end ==> UrlAt(strict, SpacesBeforeUrl, s, k) == Fragment
  {
    PathStates(strict, s, u, l);
    if u.query != [] { QueryStates(strict, s, u, l); }
    assert PieceAt(s, u, l, FragmentPiece);
    FragmentFrom(strict, s, l.query, u.fragment, Prefixed(Hash, u.fragment));
  }

  /** The state of the URL machine after `k` bytes of a printed text. */
  function Expected(l: Layout, k: nat): UrlState {
    if k <= l.scheme then Schema
    else if k < l.server then (if k == l.scheme + 1 then SchemaSlash else SchemaSlashSlash)
    else if k == l.server then ServerStart
    else if k <= l.port then (if k == l.user then ServerWithAt else Server)
    else if k <= l.path then Path
    else if k <= l.query then (if k == l.path + 1 then QueryStart else Query)
    else if k == l.query + 1 then FragmentStart else Fragment
  }

  lemma StateIs(strict: bool, s: seq<byte>, u: Uri, l: Layout, k: nat)
    requires Printable(strict, u) && Printed(s, u, l) && 0 < k <= |s|
    ensures UrlAt(strict, SpacesBeforeUrl, s, k) == Expected(l, k)
  {
    if k <= l.server {
      SchemeStates(strict, s, u, l);
    } else if k <= l.port {
      ServerStates(strict, s, u, l);
    } else if k <= l.path {
      PathStates(strict, s, u, l);
    } else if k <= l.query {
      QueryStates(strict, s, u, l);
    } else {
      FragmentStates(strict, s, u, l);
    }
  }

  lemma ExpectedServer(u: Uri, l: Layout, k: nat)
    requires Ascends(u, l) && u.host != [] && k < l.end
    ensures UrlField(Expected(l, k + 1)) == Some(HOST) <==> l.server <= k < l.port
    ensures Expected(l, k + 1) != Dead && l.server <= l.user < l.host <= l.port
  {
  }

  /** The URL machine accepts the printed text, and its server part is what was printed there. */
  lemma PrintedUrl(strict: bool, s: seq<byte>, u: Uri, l: Layout)
    requires Printable(strict, u) && Printed(s, u, l)
    ensures s != [] && UrlAt(strict, SpacesBeforeUrl, s, |s|) != Dead && l.server <= l.user < l.host <= l.port
    ensures HostSpan(strict, SpacesBeforeUrl, s, l.server, l.port)
  {
    PrintedByte(strict, s, u, l, |s| - 1);
    forall k | 0 <= k < |s|
      ensures l.server <= k < l.port <==> FieldAt(strict, SpacesBeforeUrl, s, k) == Some(HOST)
    {
      PrintedByte(strict, s, u, l, k);
    }
  }

  lemma PrintedByte(strict: bool, s: seq<byte>, u: Uri, l: Layout, k: nat)
    requires Printable(strict, u) && Printed(s, u, l) && k < |s|
    ensures UrlAt(strict, SpacesBeforeUrl, s, k + 1) != Dead && l.server <= l.user < l.host <= l.port <= |s|
    ensures l.server <= k < l.port <==> FieldAt(strict, SpacesBeforeUrl, s, k) == Some(HOST)
  {
    StateIs(strict, s, u, l, k + 1);
    ExpectedServer(u, l, k);
  }

  /** It sees an '@' exactly when userinfo was printed. */
  lemma PrintedAt(strict: bool, s: seq<byte>, u: Uri, l: Layout)
    requires Printable(strict, u) && Printed(s, u, l)
    ensures HostBegin(strict, SpacesBeforeUrl, s) == if u.userinfo != [] then UserinfoStart else HostStart
  {
    if u.userinfo != [] {
      StateIs(strict, s, u, l, l.user);
      AtSeen(strict, s, l.user, |s|);
    } else {
      forall k | 0 < k <= |s|
        ensures UrlAt(strict, SpacesBeforeUrl, s, k) != ServerWithAt
      {
        StateIs(strict, s, u, l, k);
      }
      AtNotSeen(strict, s, |s|);
    }
  }

  lemma {:induction false} AtSeen(strict: bool, s: seq<byte>, j: nat, k: nat)
    requires 0 < j <= k <= |s| && UrlAt(strict, SpacesBeforeUrl, s, j) == ServerWithAt
    ensures SeenAt(strict, SpacesBeforeUrl, s, k)
    decreases k
  {
    if j < k { AtSeen(strict, s, j, k - 1); }
  }

  lemma {:induction false} AtNotSeen(strict: bool, s: seq<byte>, k: nat)
    requires k <= |s| && forall j :: 0 < j <= k ==> UrlAt(strict, SpacesBeforeUrl, s, j) != ServerWithAt
    ensures !SeenAt(strict, SpacesBeforeUrl, s, k)
  {
    if k > 0 { AtNotSeen(strict, s, k - 1); }
  }

  // ---- The host in the printed text ------------------------------------------------------

  lemma HostBeginsAt(strict: bool, s: seq<byte>, u: Uri, l: Layout, begin: HostState)
    requires Printable(strict, u) && Printed(s, u, l) && begin == if u.userinfo != [] then UserinfoStart else HostStart
    ensures l.server <= l.user <= |s| && HostAt(strict, begin, s, l.server, l.user) == HostStart
    ensures forall k :: l.server < k < l.user ==> HostAt(strict, begin, s, l.server, k) == Userinfo
  {
    assert PieceAt(s, u, l, UserPiece);
    if u.userinfo != [] { UserinfoReads(strict, s, l.server, u.userinfo, UserText(u)); }
  }

  lemma UserinfoReads(strict: bool, s: seq<byte>, at: nat, user: seq<byte>, text: seq<byte>)
    requires Holds(s, at, at + |text|, text) && text == user + [At]
    requires user != [] && forall k :: 0 <= k < |user| ==> IsUserinfoChar(user[k])
    ensures forall k :: at < k <= at + |user| ==> HostAt(strict, UserinfoStart, s, at, k) == Userinfo
    ensures HostAt(strict, UserinfoStart, s, at, at + |user| + 1) == HostStart
  {
    HoldsBytes(s, at, at + |text|, text);
    forall k | at <= k < at + |user|
      ensures IsUserinfoChar(s[k]) && s[k] != At
    {
      assert s[at + (k - at)] == text[k - at] == user[k - at];
    }
    HostStay(strict, UserinfoStart, s, at, at, at + |user|, Userinfo);
    assert s[at + |user|] == text[|user|] == At;
  }

  /** Host characters are read as the host. */
  lemma HostReads(strict: bool, s: seq<byte>, u: Uri, l: Layout, begin: HostState, n: nat)
    requires Printable(strict, u) && Printed(s, u, l) && begin == if u.userinfo != [] then UserinfoStart else HostStart
    requires n <= |u.host| && forall k :: 0 <= k < n ==> IsHostChar(strict, u.host[k])
    ensures l.server <= l.user <= l.user + n <= |s|
    ensures forall k :: l.user < k <= l.user + n ==> HostAt(strict, begin, s, l.server, k) == Host
  {
    HostBeginsAt(strict, s, u, l, begin);
    assert PieceAt(s, u, l, HostPiece);
    HostCharsRead(strict, s, begin, l.server, l.user, u.host, n);
  }

  lemma HostCharsRead(strict: bool, s: seq<byte>, begin: HostState, from: nat, at: nat, host: seq<byte>, n: nat)
    requires Holds(s, at, at + |host|, host) && n <= |host| && forall k :: 0 <= k < n ==> IsHostChar(strict, host[k])
    requires from <= at && HostAt(strict, begin, s, from, at) == HostStart
    ensures forall k :: at < k <= at + n ==> HostAt(strict, begin, s, from, k) == Host
  {
    HoldsBytes(s, at, at + |host|, host);
    forall k | at <= k < at + n
      ensures IsHostChar(strict, s[k])
    {
      assert s[at + (k - at)] == host[k - at];
    }
    if n > 0 { HostStay(strict, begin, s, from, at, at + n, Host); }
  }

  lemma PortCharsRead(strict: bool, s: seq<byte>, begin: HostState, from: nat, at: nat, digits: seq<byte>,
      text: seq<byte>)
    requires Holds(s, at, at + |text|, text) && text == [Colon] + digits
    requires digits != [] && forall k :: 0 <= k < |digits| ==> IsNum(digits[k])
    requires from <= at && HostAt(strict, begin, s, from, at) == Host
    ensures HostAt(strict, begin, s, from, at + 1) == PortStart && Occurs(s, at + 1, digits)
    ensures forall k :: at + 1 < k <= at + |text| ==> HostAt(strict, begin, s, from, k) == Port
  {
    HoldsBytes(s, at, at + |text|, text);
    OccursSplit(s, at, [Colon], digits);
    assert s[at + 0] == text[0];
    forall k | at + 1 <= k < at + |text|
      ensures IsNum(s[k])
    {
      assert s[at + 1 + (k - at - 1)] == digits[k - at - 1];
    }
    HostStay(strict, begin, s, from, at + 1, at + |text|, Port);
  }

  lemma PortReads(strict: bool, s: seq<byte>, u: Uri, l: Layout, begin: HostState)
    requires Printable(strict, u) && Printed(s, u, l) && begin == if u.userinfo != [] then UserinfoStart else HostStart
    requires PlainHost(strict, u) && !IsDefaultPort(u)
    ensures l.server < l.host < l.host + 1 < l.port <= |s|
            && HostAt(strict, begin, s, l.server, l.host + 1) == PortStart
    ensures forall k :: l.host + 1 < k <= l.port ==> HostAt(strict, begin, s, l.server, k) == Port
    ensures l.port == l.host + 1 + |DecimalText(u.port)| && Occurs(s, l.host + 1, DecimalText(u.port))
  {
    HostReads(strict, s, u, l, begin, |u.host|);
    assert PieceAt(s, u, l, HostPiece) && PieceAt(s, u, l, PortPiece);
    PortCharsRead(strict, s, begin, l.server, l.host, DecimalText(u.port), PortText(u));
  }

  /** Where each part lies in a printed text; an empty stretch when it was not printed. */
  function Span(l: Layout, f: Field): (nat, nat) {
    match f
    case SCHEMA => (0, l.scheme)
    case USERINFO => (l.server, if l.server < l.user then l.user - 1 else l.server)
    case HOST => (l.user, l.host)
    case PORT => (if l.host < l.port then l.host + 1 else l.host, l.port)
    case PATH => (l.port, l.path)
    case QUERY => (if l.path < l.query then l.path + 1 else l.path, l.query)
    case FRAGMENT => (if l.query < l.end then l.query + 1 else l.query, l.end)
  }

  function FieldsOf(l: Layout): Fields {
    map f: Field | Span(l, f).0 < Span(l, f).1 :: (Span(l, f).0, Span(l, f).1 - Span(l, f).0)
  }

  /** The field the host machine gives to byte `k` of the server part. */
  lemma ServerFieldIs(strict: bool, s: seq<byte>, u: Uri, l: Layout, begin: HostState, k: nat)
    requires Printable(strict, u) && Printed(s, u, l) && begin == if u.userinfo != [] then UserinfoStart else HostStart
    requires PlainHost(strict, u) && l.server <= k < l.port <= |s|
    ensures var q := HostAt(strict, begin, s, l.server, k + 1);
            q == if k + 1 < l.user then Userinfo else if k + 1 == l.user then HostStart else if k < l.host then Host
                else if k == l.host then PortStart else Port
  {
    if k < l.user {
      HostBeginsAt(strict, s, u, l, begin);
    } else if k < l.host {
      assert PieceAt(s, u, l, HostPiece);
      HostReads(strict, s, u, l, begin, |u.host|);
    } else {
      PortReads(strict, s, u, l, begin);
    }
  }

  lemma ServerSpan(l: Layout, k: nat, f: Field, q: HostState)
    requires l.scheme < l.server <= l.user < l.host <= l.port < l.path <= l.query <= l.end && l.server <= k < l.port
    requires q == if k + 1 < l.user then Userinfo else if k + 1 == l.user then HostStart else if k < l.host then Host
             else if k == l.host then PortStart else Port
    ensures HostField(q) == Some(f) <==> Span(l, f).0 <= k < Span(l, f).1
  {
  }

  /** Every byte of the printed text is read as what it was printed for. */
  lemma FieldIs(strict: bool, s: seq<byte>, u: Uri, l: Layout, k: nat, f: Field)
    requires Printable(strict, u) && Printed(s, u, l) && PlainHost(strict, u) && k < |s| && l.server <= l.port <= |s|
    ensures WholeMap(strict, SpacesBeforeUrl, s, l.server, l.port)(k) == Some(f) <==> Span(l, f).0 <= k < Span(l, f).1
  {
    if l.server <= k < l.port {
      var begin := HostBegin(strict, SpacesBeforeUrl, s);
      PrintedAt(strict, s, u, l);
      ServerFieldIs(strict, s, u, l, begin, k);
      var q := HostAt(strict, begin, s, l.server, k + 1);
      assert WholeMap(strict, SpacesBeforeUrl, s, l.server, l.port)(k) == HostField(q);
      ServerSpan(l, k, f, q);
    } else {
      StateIs(strict, s, u, l, k + 1);
      UrlSpan(l, k, f);
    }
  }

  lemma UrlSpan(l: Layout, k: nat, f: Field)
    requires l.scheme + 3 == l.server <= l.user < l.host <= l.port < l.path <= l.query <= l.end
             && !(l.server <= k < l.port) && k < l.end
    ensures UrlField(Expected(l, k + 1)) == Some(f) <==> Span(l, f).0 <= k < Span(l, f).1
  {
  }

  lemma FieldsAre(strict: bool, s: seq<byte>, u: Uri, l: Layout)
    requires Printable(strict, u) && Printed(s, u, l) && PlainHost(strict, u) && l.server <= l.port <= |s|
    ensures Marked(WholeMap(strict, SpacesBeforeUrl, s, l.server, l.port), |s|, FieldsOf(l))
  {
    var whole := WholeMap(strict, SpacesBeforeUrl, s, l.server, l.port);
    forall f
      ensures Covers(whole, |s|, FieldsOf(l), f)
    {
      forall k: nat | k < |s|
        ensures whole(k) == Some(f) <==> Span(l, f).0 <= k < Span(l, f).1
      {
        FieldIs(strict, s, u, l, k, f);
      }
    }
  }

  // ---- The port's digits -----------------------------------------------------------------

  lemma {:induction false} NumberOfText(s: seq<byte>, lo: nat, n: nat, text: seq<byte>)
    requires text == DecimalText(n) && Occurs(s, lo, text)
    ensures forall k :: lo <= k < lo + |text| ==> IsNum(s[k])
    ensures Number(s, lo, lo + |text|) == n
    decreases n
  {
    assert forall k :: lo <= k < lo + |text| ==> s[k] == text[k - lo];
    if n >= 10 {
      NumberOfText(s, lo, n / 10, DecimalText(n / 10));
      assert s[lo + (|text| - 1)] == text[|text| - 1];
    } else {
      assert s[lo + 0] == text[0];
      assert Number(s, lo, lo) == 0;
    }
  }

  // ---- Normal form -----------------------------------------------------------------------

  function NumberOfPort(u: Uri): nat { if IsDefaultPort(u) then 0 else u.port }

  lemma PortField(u: Uri, l: Layout)
    requires Ascends(u, l) && u.host != []
    ensures PORT in FieldsOf(l) <==> !IsDefaultPort(u)
    ensures PORT in FieldsOf(l) ==> FieldsOf(l)[PORT] == (l.host + 1, l.port - l.host - 1)
  {
  }

  lemma PortDigitsAre(strict: bool, s: seq<byte>, u: Uri, l: Layout)
    requires Printable(strict, u) && Printed(s, u, l) && PlainHost(strict, u) && !IsDefaultPort(u)
    ensures l.host + 1 <= l.port <= |s| && (forall k :: l.host + 1 <= k < l.port ==> IsNum(s[k]))
    ensures Number(s, l.host + 1, l.port) == u.port
  {
    PortReads(strict, s, u, l, if u.userinfo != [] then UserinfoStart else HostStart);
    NumberOfText(s, l.host + 1, u.port, DecimalText(u.port));
  }

  lemma PortIs(strict: bool, s: seq<byte>, u: Uri, l: Layout)
    requires Printable(strict, u) && Printed(s, u, l) && PlainHost(strict, u)
    ensures PortOk(s, ParsedUrl(FieldsOf(l), NumberOfPort(u)))
    ensures PORT in FieldsOf(l) <==> !IsDefaultPort(u)
  {
    PortField(u, l);
    if !IsDefaultPort(u) { PortDigitsAre(strict, s, u, l); }
  }

  /** The printed text of a URI with a plain host is accepted. */
  lemma PrintedIsParsed(strict: bool, s: seq<byte>, u: Uri, l: Layout)
    requires Printable(strict, u) && Printed(s, u, l) && PlainHost(strict, u)
    ensures Parsed(strict, false, s, l.server, l.port, ParsedUrl(FieldsOf(l), NumberOfPort(u)))
  {
    PrintedUrl(strict, s, u, l);
    PrintedAt(strict, s, u, l);
    FieldsAre(strict, s, u, l);
    PortIs(strict, s, u, l);
    ServerFieldIs(strict, s, u, l, HostBegin(strict, SpacesBeforeUrl, s), l.port - 1);
  }

  /** A part held where its span says, or empty there, is the text of its field. */
  lemma PartIs(s: seq<byte>, l: Layout, f: Field, text: seq<byte>)
    requires Holds(s, Span(l, f).0, Span(l, f).1, text)
    ensures f in FieldsOf(l) ==> FieldsOf(l)[f].0 + FieldsOf(l)[f].1 <= |s|
    ensures Part(s, FieldsOf(l), f) == text
  {
  }

  lemma MarkedText(s: seq<byte>, lo: nat, hi: nat, mark: byte, text: seq<byte>)
    requires Holds(s, lo, hi, Prefixed(mark, text))
    ensures Holds(s, if lo < hi then lo + 1 else lo, hi, text)
  {
    if text != [] { assert s[lo + 1..hi] == s[lo..hi][1..]; }
  }

  lemma UserPart(s: seq<byte>, lo: nat, hi: nat, u: Uri)
    requires Holds(s, lo, hi, UserText(u))
    ensures Holds(s, lo, if lo < hi then hi - 1 else lo, u.userinfo)
  {
    if u.userinfo != [] { assert s[lo..hi - 1] == s[lo..hi][..hi - 1 - lo]; }
  }

  lemma FrontParts(s: seq<byte>, u: Uri, l: Layout)
    requires Printed(s, u, l) && u.host != []
    ensures Part(s, FieldsOf(l), SCHEMA) == u.scheme && Part(s, FieldsOf(l), USERINFO) == u.userinfo
            && Part(s, FieldsOf(l), HOST) == u.host
  {
    assert PieceAt(s, u, l, SchemePiece);
    PartIs(s, l, SCHEMA, u.scheme);
    assert PieceAt(s, u, l, UserPiece);
    UserPart(s, l.server, l.user, u);
    PartIs(s, l, USERINFO, u.userinfo);
    assert PieceAt(s, u, l, HostPiece);
    PartIs(s, l, HOST, u.host);
  }

  lemma BackParts(s: seq<byte>, u: Uri, l: Layout)
    requires Printed(s, u, l) && u.host != []
    ensures Part(s, FieldsOf(l), PATH) == GetPath(u) && Part(s, FieldsOf(l), QUERY) == u.query
            && Part(s, FieldsOf(l), FRAGMENT) == u.fragment
  {
    assert PieceAt(s, u, l, PathPiece);
    PartIs(s, l, PATH, GetPath(u));
    assert PieceAt(s, u, l, QueryPiece);
    MarkedText(s, l.path, l.query, Question, u.query);
    PartIs(s, l, QUERY, u.query);
    assert PieceAt(s, u, l, FragmentPiece);
    MarkedText(s, l.query, l.end, Hash, u.fragment);
    PartIs(s, l, FRAGMENT, u.fragment);
  }

  lemma FieldsFit(s: seq<byte>, u: Uri, l: Layout)
    requires Ascends(u, l) && u.host != [] && |s| == l.end
    ensures InBounds(FieldsOf(l), |s|)
  {
  }

  /** The URI that reading the printed text gives: the same, with an empty path made explicit. */
  function Normal(u: Uri): Uri { u.(path := GetPath(u)) }

  lemma PrintedIsNormal(strict: bool, s: seq<byte>, u: Uri, l: Layout)
    requires Printable(strict, u) && Printed(s, u, l) && PlainHost(strict, u)
    ensures InBounds(FieldsOf(l), |s|) && UriOf(s, ParsedUrl(FieldsOf(l), NumberOfPort(u))) == Normal(u)
  {
    FieldsFit(s, u, l);
    FrontParts(s, u, l);
    BackParts(s, u, l);
    PortIs(strict, s, u, l);
  }

  /** The first byte of the host that is not a host character stops the host machine or starts a port. */
  lemma OddHost(strict: bool, s: seq<byte>, u: Uri, l: Layout, begin: HostState, i: nat)
    requires Printable(strict, u) && Printed(s, u, l) && begin == if u.userinfo != [] then UserinfoStart else HostStart
    requires i < |u.host| && !IsHostChar(strict, u.host[i]) && forall k :: 0 <= k < i ==> IsHostChar(strict, u.host[k])
    ensures l.server <= l.user + i < |s| && HostRank(HostAt(strict, begin, s, l.server, l.user + i + 1)) >= 6
  {
    HostBeginsAt(strict, s, u, l, begin);
    HostReads(strict, s, u, l, begin, i);
    assert PieceAt(s, u, l, HostPiece);
    HoldsBytes(s, l.user, l.host, u.host);
    assert s[l.user + i] == u.host[i] && IsUserinfoChar(u.host[i]);
  }

  /** The bytes read as the host lie before that one. */
  lemma HostBetween(strict: bool, s: seq<byte>, u: Uri, l: Layout, begin: HostState, i: nat, k: nat)
    requires Printable(strict, u) && Printed(s, u, l) && begin == if u.userinfo != [] then UserinfoStart else HostStart
    requires i < |u.host| && !IsHostChar(strict, u.host[i]) && forall j :: 0 <= j < i ==> IsHostChar(strict, u.host[j])
    requires l.server <= k < |s| && HostField(HostAt(strict, begin, s, l.server, k + 1)) == Some(HOST)
    ensures l.user <= k < l.user + i
  {
    if l.user + i <= k {
      OddHost(strict, s, u, l, begin, i);
      HostRankGrows(strict, begin, s, l.server, l.user + i + 1, k + 1);
    } else {
      HostBeginsAt(strict, s, u, l, begin);
    }
  }

  lemma OddHostIsShort(strict: bool, s: seq<byte>, u: Uri, l: Layout, v: ParsedUrl, lo: nat, hi: nat, i: nat)
    requires Printable(strict, u) && Printed(s, u, l) && Parsed(strict, false, s, lo, hi, v) && HOST in v.fields
    requires i < |u.host| && !IsHostChar(strict, u.host[i]) && forall k :: 0 <= k < i ==> IsHostChar(strict, u.host[k])
    ensures v.fields[HOST].1 <= i
  {
    PrintedUrl(strict, s, u, l);
    PrintedAt(strict, s, u, l);
    SpanUnique(strict, SpacesBeforeUrl, s, l.server, l.port, lo, hi);
    assert Covers(WholeMap(strict, SpacesBeforeUrl, s, lo, hi), |s|, v.fields, HOST);
    var first := PartByte(strict, s, lo, hi, v, HOST, 0);
    var last := PartByte(strict, s, lo, hi, v, HOST, v.fields[HOST].1 - 1);
    HostBetween(strict, s, u, l, HostBegin(strict, SpacesBeforeUrl, s), i, first);
    HostBetween(strict, s, u, l, HostBegin(strict, SpacesBeforeUrl, s), i, last);
  }

  /** `v` is a reading of `text`, as the URI `w`. */
  ghost predicate ReadsAs(strict: bool, text: seq<byte>, lo: nat, hi: nat, v: ParsedUrl, w: Uri) {
    Parsed(strict, false, text, lo, hi, v) && InBounds(v.fields, |text|) && UriOf(text, v) == w
  }

  lemma PlainReadsBack(strict: bool, w: Uri)
    requires Printable(strict, w) && PlainHost(strict, w)
    ensures var l := LayoutOf(w);
            ReadsAs(strict, ToString(w), l.server, l.port, ParsedUrl(FieldsOf(l), NumberOfPort(w)), Normal(w))
  {
    PrintedText(w);
    PrintedIsParsed(strict, ToString(w), w, LayoutOf(w));
    PrintedIsNormal(strict, ToString(w), w, LayoutOf(w));
  }

  lemma OddHostIsLost(strict: bool, w: Uri, text: seq<byte>, lo: nat, hi: nat, v: ParsedUrl)
    requires Printable(strict, w) && !PlainHost(strict, w) && Printed(text, w, LayoutOf(w))
    requires Parsed(strict, false, text, lo, hi, v) && InBounds(v.fields, |text|)
    ensures Part(text, v.fields, HOST) != w.host
  {
    var i := FirstOdd(strict, w.host);
    if HOST in v.fields { OddHostIsShort(strict, text, w, LayoutOf(w), v, lo, hi, i); }
  }

  lemma OddDoesNotReadBack(strict: bool, w: Uri, lo: nat, hi: nat, v: ParsedUrl)
    requires Printable(strict, w) && !PlainHost(strict, w)
    ensures !ReadsAs(strict, ToString(w), lo, hi, v, Normal(w))
  {
    var text := ToString(w);
    PrintedText(w);
    if Parsed(strict, false, text, lo, hi, v) && InBounds(v.fields, |text|) {
      OddHostIsLost(strict, w, text, lo, hi, v);
    }
  }

  /** A URI read from a URL prints to a text that reads as the same URI if and only if its host is plain. */
  lemma NormalForm(strict: bool, s: seq<byte>, lo: nat, hi: nat, u: ParsedUrl)
    requires Parsed(strict, false, s, lo, hi, u) && SCHEMA in u.fields && InBounds(u.fields, |s|)
    ensures var w := UriOf(s, u);
            PlainHost(strict, w) <==> exists lo', hi', v :: ReadsAs(strict, ToString(w), lo', hi', v, Normal(w))
  {
    PartsPrintable(strict, s, lo, hi, u);
    var w := UriOf(s, u);
    if PlainHost(strict, w) {
      PlainReadsBack(strict, w);
    } else {
      forall lo', hi', v
        ensures !ReadsAs(strict, ToString(w), lo', hi', v, Normal(w))
      {
        OddDoesNotReadBack(strict, w, lo', hi', v);
      }
    }
  }

  lemma FirstOdd(strict: bool, host: seq<byte>) returns (i: nat)
    requires exists k :: 0 <= k < |host| && !IsHostChar(strict, host[k])
    ensures i < |host| && !IsHostChar(strict, host[i]) && forall k :: 0 <= k < i ==> IsHostChar(strict, host[k])
  {
    i := 0;
    while IsHostChar(strict, host[i])
      invariant i < |host| && forall k :: 0 <= k < i ==> IsHostChar(strict, host[k])
      decreases |host| - i
    {
      i := i + 1;
    }
  }

  // ---- The length of the printed text ----------------------------------------------------

  lemma BeforeServer(strict: bool, q: UrlState, c: byte)
    ensures UrlField(UrlNext(strict, q, c)) == Some(HOST) ==> q == ServerStart || UrlField(q) == Some(HOST)
    ensures UrlNext(strict, q, c) == ServerStart ==> q == SchemaSlashSlash
    ensures UrlNext(strict, q, c) == SchemaSlashSlash ==> q == SchemaSlash
    ensures UrlNext(strict, q, c) == SchemaSlash ==> q == Schema
    ensures UrlNext(strict, q, c) == Query ==> q == QueryStart || q == Query
    ensures UrlNext(strict, q, c) == Fragment ==> q == FragmentStart || q == Fragment
  {
  }

  lemma BeforeHostField(strict: bool, q: HostState, c: byte)
    ensures HostField(HostNext(strict, q, c)) == Some(HOST) ==> HostField(q).None? || HostField(q) == Some(HOST)
    ensures HostField(HostNext(strict, q, c)) == Some(PORT) ==> q == PortStart || q == Port
  {
  }

  lemma ThreeBefore(strict: bool, s: seq<byte>, lo: nat)
    requires lo <= |s| && UrlAt(strict, SpacesBeforeUrl, s, lo) == ServerStart
    ensures lo >= 3 && UrlAt(strict, SpacesBeforeUrl, s, lo - 2) == SchemaSlash
  {
    BeforeServer(strict, UrlAt(strict, SpacesBeforeUrl, s, lo - 1), s[lo - 1]);
    BeforeServer(strict, UrlAt(strict, SpacesBeforeUrl, s, lo - 2), s[lo - 2]);
    BeforeServer(strict, UrlAt(strict, SpacesBeforeUrl, s, lo - 3), s[lo - 3]);
  }

  lemma ServerStartsThere(strict: bool, s: seq<byte>, lo: nat, hi: nat)
    requires HostSpan(strict, SpacesBeforeUrl, s, lo, hi) && lo < hi
    ensures UrlAt(strict, SpacesBeforeUrl, s, lo) == ServerStart
  {
    assert FieldAt(strict, SpacesBeforeUrl, s, lo) == Some(HOST);
    assert lo > 0 ==> FieldAt(strict, SpacesBeforeUrl, s, lo - 1) != Some(HOST);
    BeforeServer(strict, UrlAt(strict, SpacesBeforeUrl, s, lo), s[lo]);
  }

  /** The scheme ends three bytes before the server part. */
  lemma SchemeGap(strict: bool, s: seq<byte>, lo: nat, hi: nat, u: ParsedUrl)
    requires Parsed(strict, false, s, lo, hi, u) && SCHEMA in u.fields
    ensures u.fields[SCHEMA].0 + u.fields[SCHEMA].1 + 3 <= lo
  {
    ServerStartsThere(strict, s, lo, hi);
    ThreeBefore(strict, s, lo);
    assert Covers(WholeMap(strict, SpacesBeforeUrl, s, lo, hi), |s|, u.fields, SCHEMA);
    var k := PartByte(strict, s, lo, hi, u, SCHEMA, u.fields[SCHEMA].1 - 1);
    if lo - 3 <= k { RankGrows(strict, SpacesBeforeUrl, s, lo - 2, k + 1); }
  }

  /** The fields of the server part. */
  predicate InServerPart(f: Field) { f == USERINFO || f == HOST || f == PORT }

  /** The state of the URL machine where a field ends. */
  lemma UrlAfter(strict: bool, s: seq<byte>, lo: nat, hi: nat, u: ParsedUrl, f: Field)
    requires Parsed(strict, false, s, lo, hi, u) && f in u.fields
    ensures u.fields[f].0 + u.fields[f].1 <= |s|
    ensures UrlField(UrlAt(strict, SpacesBeforeUrl, s, u.fields[f].0 + u.fields[f].1))
            == Some(if InServerPart(f) then HOST else f)
  {
    assert Covers(WholeMap(strict, SpacesBeforeUrl, s, lo, hi), |s|, u.fields, f);
    var k := PartByte(strict, s, lo, hi, u, f, u.fields[f].1 - 1);
    assert lo <= k < hi <==> FieldAt(strict, SpacesBeforeUrl, s, k) == Some(HOST);
  }

  /** The state of the URL machine where the query or the fragment starts. */
  lemma UrlBefore(strict: bool, s: seq<byte>, lo: nat, hi: nat, u: ParsedUrl, f: Field)
    requires Parsed(strict, false, s, lo, hi, u) && f in u.fields && (f == QUERY || f == FRAGMENT)
    ensures u.fields[f].0 < |s|
    ensures var q := UrlAt(strict, SpacesBeforeUrl, s, u.fields[f].0);
            if f == QUERY then q == QueryStart || q == Query else q == FragmentStart || q == Fragment
  {
    assert Covers(WholeMap(strict, SpacesBeforeUrl, s, lo, hi), |s|, u.fields, f);
    var k := PartByte(strict, s, lo, hi, u, f, 0);
    BeforeServer(strict, UrlAt(strict, SpacesBeforeUrl, s, k), s[k]);
  }

  /** The state of the host machine where a field of the server part ends. */
  lemma HostAfter(strict: bool, s: seq<byte>, lo: nat, hi: nat, u: ParsedUrl, f: Field)
    requires Parsed(strict, false, s, lo, hi, u) && f in u.fields && InServerPart(f)
    ensures lo <= u.fields[f].0 + u.fields[f].1 <= |s|
    ensures HostField(HostAt(strict, HostBegin(strict, SpacesBeforeUrl, s), s, lo, u.fields[f].0 + u.fields[f].1))
            == Some(f)
  {
    assert Covers(WholeMap(strict, SpacesBeforeUrl, s, lo, hi), |s|, u.fields, f);
    var k := PartByte(strict, s, lo, hi, u, f, u.fields[f].1 - 1);
  }

  /** The state of the host machine where the host or the port starts. */
  lemma HostBefore(strict: bool, s: seq<byte>, lo: nat, hi: nat, u: ParsedUrl, f: Field)
    requires Parsed(strict, false, s, lo, hi, u) && f in u.fields && (f == HOST || f == PORT)
    ensures lo <= u.fields[f].0 < |s|
    ensures var before := HostField(HostAt(strict, HostBegin(strict, SpacesBeforeUrl, s), s, lo, u.fields[f].0));
            before.None? || before == Some(f)
  {
    assert Covers(WholeMap(strict, SpacesBeforeUrl, s, lo, hi), |s|, u.fields, f);
    var k := PartByte(strict, s, lo, hi, u, f, 0);
    BeforeHostField(strict, HostAt(strict, HostBegin(strict, SpacesBeforeUrl, s), s, lo, k), s[k]);
  }

  lemma HostGap(strict: bool, s: seq<byte>, lo: nat, hi: nat, u: ParsedUrl, f: Field, g: Field)
    requires Parsed(strict, false, s, lo, hi, u) && f in u.fields && g in u.fields
             && ((g == PORT && f == HOST) || (g == HOST && f == USERINFO))
    ensures u.fields[f].0 + u.fields[f].1 != u.fields[g].0
  {
    HostAfter(strict, s, lo, hi, u, f);
    HostBefore(strict, s, lo, hi, u, g);
  }

  lemma UrlGap(strict: bool, s: seq<byte>, lo: nat, hi: nat, u: ParsedUrl, f: Field, g: Field)
    requires Parsed(strict, false, s, lo, hi, u) && f in u.fields && g in u.fields && Place(f) < Place(g)
             && (g == QUERY || g == FRAGMENT)
    ensures u.fields[f].0 + u.fields[f].1 != u.fields[g].0
  {
    UrlAfter(strict, s, lo, hi, u, f);
    UrlBefore(strict, s, lo, hi, u, g);
  }

  /** A delimiter stands before the host after userinfo, before the port, the query and the fragment. */
  lemma FieldGap(strict: bool, s: seq<byte>, lo: nat, hi: nat, u: ParsedUrl, f: Field, g: Field)
    requires Parsed(strict, false, s, lo, hi, u) && f in u.fields && g in u.fields && Place(f) < Place(g)
    requires (g == PORT && f == HOST) || g == QUERY || g == FRAGMENT || (g == HOST && f == USERINFO)
    ensures u.fields[f].0 + u.fields[f].1 < u.fields[g].0
  {
    InOrder(strict, false, s, lo, hi, u, f, g);
    if g == QUERY || g == FRAGMENT { UrlGap(strict, s, lo, hi, u, f, g); } else { HostGap(strict, s, lo, hi, u, f, g); }
  }

  lemma {:induction false} DigitsFit(s: seq<byte>, lo: nat, hi: nat)
    requires lo <= hi <= |s| && forall k :: lo <= k < hi ==> IsNum(s[k])
    ensures |DecimalText(Number(s, lo, hi))| <= Max(1, hi - lo)
    decreases hi
  {
    if lo < hi {
      DigitsFit(s, lo, hi - 1);
      var n := Number(s, lo, hi - 1);
      assert IsNum(s[hi - 1]);
      assert Number(s, lo, hi) / 10 == n;
    }
  }

  /** The offset at which the host ends leaves room for all that is printed before. */
  lemma HostFits(strict: bool, s: seq<byte>, lo: nat, hi: nat, u: ParsedUrl)
    requires Parsed(strict, false, s, lo, hi, u) && SCHEMA in u.fields && InBounds(u.fields, |s|)
    ensures HOST in u.fields
    ensures var w := UriOf(s, u); |w.scheme| + 3 + |UserText(w)| + |w.host| <= u.fields[HOST].0 + u.fields[HOST].1
  {
    HostIsSet(strict, s, lo, hi, u);
    SchemeGap(strict, s, lo, hi, u);
    HostBefore(strict, s, lo, hi, u, HOST);
    if USERINFO in u.fields {
      FieldGap(strict, s, lo, hi, u, USERINFO, HOST);
      assert Covers(WholeMap(strict, SpacesBeforeUrl, s, lo, hi), |s|, u.fields, USERINFO);
      var k := PartByte(strict, s, lo, hi, u, USERINFO, 0);
    }
  }

  function ServerEnd(u: ParsedUrl): nat
    requires HOST in u.fields
  {
    if PORT in u.fields then u.fields[PORT].0 + u.fields[PORT].1 else u.fields[HOST].0 + u.fields[HOST].1
  }

  lemma PortFits(strict: bool, s: seq<byte>, lo: nat, hi: nat, u: ParsedUrl)
    requires Parsed(strict, false, s, lo, hi, u) && HOST in u.fields && InBounds(u.fields, |s|)
    requires DefaultPort(Part(s, u.fields, SCHEMA)) != 0
    ensures u.fields[HOST].0 + u.fields[HOST].1 + |PortText(UriOf(s, u))| <= ServerEnd(u)
  {
    if PORT in u.fields {
      FieldGap(strict, s, lo, hi, u, HOST, PORT);
      assert Covers(WholeMap(strict, SpacesBeforeUrl, s, lo, hi), |s|, u.fields, PORT);
      DigitsFit(s, u.fields[PORT].0, u.fields[PORT].0 + u.fields[PORT].1);
    }
  }

  /** The part `g`, printed after a mark, fits after the offset where `f` ends. */
  lemma MarkedFits(strict: bool, s: seq<byte>, lo: nat, hi: nat, u: ParsedUrl, f: Field, g: Field, mark: byte)
    requires Parsed(strict, false, s, lo, hi, u) && InBounds(u.fields, |s|) && f in u.fields && Place(f) < Place(g)
             && (g == QUERY || g == FRAGMENT)
    ensures var end := u.fields[f].0 + u.fields[f].1;
            end + |Prefixed(mark, Part(s, u.fields, g))| <= if g in u.fields then u.fields[g].0 + u.fields[g].1 else end
  {
    if g in u.fields { FieldGap(strict, s, lo, hi, u, f, g); }
  }

  lemma RestFits(strict: bool, s: seq<byte>, lo: nat, hi: nat, u: ParsedUrl)
    requires Parsed(strict, false, s, lo, hi, u) && InBounds(u.fields, |s|) && HOST in u.fields
    ensures var w := UriOf(s, u);
            ServerEnd(u) + |w.path| + |Prefixed(Question, w.query)| + |Prefixed(Hash, w.fragment)| <= |s|
  {
    var last := if PORT in u.fields then PORT else HOST;
    if PATH in u.fields {
      InOrder(strict, false, s, lo, hi, u, last, PATH);
      last := PATH;
    }
    MarkedFits(strict, s, lo, hi, u, last, QUERY, Question);
    if QUERY in u.fields { last := QUERY; }
    MarkedFits(strict, s, lo, hi, u, last, FRAGMENT, Hash);
  }

  /** For http, https and ws the printed text is at most one byte longer, the slash of an empty path. */
  lemma TextFits(strict: bool, s: seq<byte>, lo: nat, hi: nat, u: ParsedUrl)
    requires Parsed(strict, false, s, lo, hi, u) && SCHEMA in u.fields && InBounds(u.fields, |s|)
    requires DefaultPort(Part(s, u.fields, SCHEMA)) != 0
    ensures |ToString(UriOf(s, u))| <= |s| + 1
  {
    HostFits(strict, s, lo, hi, u);
    PortFits(strict, s, lo, hi, u);
    RestFits(strict, s, lo, hi, u);
  }

  /**
   Reading a URL, printing it and reading it again gives the same URI, its empty path made explicit,
   if and only if its host is plain. For http, https and ws this holds for URLs of up to 65534 bytes.
   */
  method CreateTwice(strict: bool, s: seq<byte>) returns (a: Option<Uri>, b: Option<Uri>)
    ensures |s| <= MaxUrl && a.Some? && a.value.scheme != [] && |ToString(a.value)| <= MaxUrl ==>
              (b == Some(Normal(a.value)) <==> PlainHost(strict, a.value))
    ensures |s| < MaxUrl && a.Some? && DefaultPort(a.value.scheme) != 0 ==> |ToString(a.value)| <= MaxUrl
  {
    ghost var lo, hi, u;
    a, lo, hi, u := Create(strict, s);
    if a.None? { return a, None; }
    ghost var lo', hi', v;
    b, lo', hi', v := Create(strict, ToString(a.value));
    if |s| <= MaxUrl && a.value.scheme != [] {
      NormalForm(strict, s, lo, hi, u);
      if DefaultPort(a.value.scheme) != 0 { TextFits(strict, s, lo, hi, u); }
      if |ToString(a.value)| <= MaxUrl { SecondReading(strict, a.value, b, lo', hi', v); }
    }
  }

  lemma SecondReading(strict: bool, w: Uri, b: Option<Uri>, lo: nat, hi: nat, v: ParsedUrl)
    requires PlainHost(strict, w) <==> exists lo', hi', v' :: ReadsAs(strict, ToString(w), lo', hi', v', Normal(w))
    requires b.Some? ==> ReadsAs(strict, ToString(w), lo, hi, v, b.value)
    requires b.None? ==> forall lo', hi', v' :: !Parsed(strict, false, ToString(w), lo', hi', v')
    ensures b == Some(Normal(w)) <==> PlainHost(strict, w)
  {
    if PlainHost(strict, w) {
      var lo', hi', v' :| ReadsAs(strict, ToString(w), lo', hi', v', Normal(w));
      if b.Some? { SameReading(strict, ToString(w), lo, hi, v, lo', hi', v'); }
    }
  }

  lemma SameReading(strict: bool, s: seq<byte>, lo: nat, hi: nat, u: ParsedUrl, lo': nat, hi': nat, v: ParsedUrl)
    requires Parsed(strict, false, s, lo, hi, u) && Parsed(strict, false, s, lo', hi', v)
    ensures u == v
  {
    Determined(strict, false, s, lo, hi, u.fields, lo', hi', v);
  }

  // ---- An address in brackets ------------------------------------------------------------

  /** The bytes of http://[::1]/ */
  const BracketUrl: seq<byte> := [104, 116, 116, 112, 58, 47, 47, 91, 58, 58, 49, 93, 47]

  const BracketFields: Fields := map[SCHEMA := (0, 4), HOST := (8, 3), PATH := (12, 1)]

  function BracketState(k: nat): UrlState {
    if k == 0 then SpacesBeforeUrl else if k <= 4 then Schema
    else if k == 5 then SchemaSlash else if k == 6 then SchemaSlashSlash
    else if k == 7 then ServerStart else if k <= 12 then Server else Path
  }

  function BracketHost(k: nat): HostState {
    if k <= 7 then HostStart else if k == 8 then V6Start else if k <= 11 then V6 else V6End
  }

  lemma {:induction false} BracketStates(strict: bool, k: nat)
    requires k <= |BracketUrl|
    ensures UrlAt(strict, SpacesBeforeUrl, BracketUrl, k) == BracketState(k)
  {
    if k > 0 { BracketStates(strict, k - 1); }
  }

  lemma {:induction false} BracketHosts(strict: bool, k: nat)
    requires 7 <= k <= 12
    ensures HostAt(strict, HostStart, BracketUrl, 7, k) == BracketHost(k)
  {
    if k > 7 { BracketHosts(strict, k - 1); }
  }

  lemma BracketSpan(strict: bool)
    ensures HostSpan(strict, SpacesBeforeUrl, BracketUrl, 7, 12)
    ensures HostBegin(strict, SpacesBeforeUrl, BracketUrl) == HostStart
  {
    forall k: nat | k <= |BracketUrl|
      ensures UrlAt(strict, SpacesBeforeUrl, BracketUrl, k) == BracketState(k)
    {
      BracketStates(strict, k);
    }
    AtNotSeen(strict, BracketUrl, |BracketUrl|);
  }

  /** The field of each byte: the brackets belong to none. */
  function BracketField(k: nat): Option<Field> {
    if k < 4 then Some(SCHEMA) else if 8 <= k < 11 then Some(HOST) else if k == 12 then Some(PATH) else None
  }

  lemma BracketMap(strict: bool, k: nat)
    requires k < |BracketUrl|
    ensures WholeMap(strict, SpacesBeforeUrl, BracketUrl, 7, 12)(k) == BracketField(k)
  {
    BracketSpan(strict);
    if 7 <= k < 12 {
      BracketHosts(strict, k + 1);
      assert HostField(BracketHost(k + 1)) == BracketField(k);
    } else {
      BracketStates(strict, k + 1);
      assert UrlField(BracketState(k + 1)) == BracketField(k);
    }
  }

  lemma BracketCovers(at: nat -> Option<Field>, f: Field)
    requires forall k: nat :: k < 13 ==> at(k) == BracketField(k)
    ensures Covers(at, 13, BracketFields, f)
  {
  }

  lemma BracketMarked(strict: bool)
    ensures Marked(WholeMap(strict, SpacesBeforeUrl, BracketUrl, 7, 12), |BracketUrl|, BracketFields)
  {
    var whole := WholeMap(strict, SpacesBeforeUrl, BracketUrl, 7, 12);
    forall k: nat | k < |BracketUrl|
      ensures whole(k) == BracketField(k)
    {
      BracketMap(strict, k);
    }
    forall f
      ensures Covers(whole, |BracketUrl|, BracketFields, f)
    {
      BracketCovers(whole, f);
    }
  }

  const BracketUri := Uri(Http, [], [Colon, Colon, 49], 80, [Slash], [], [])

  lemma BracketParts()
    ensures InBounds(BracketFields, |BracketUrl|) && UriOf(BracketUrl, ParsedUrl(BracketFields, 0)) == BracketUri
  {
    assert Part(BracketUrl, BracketFields, SCHEMA) == Http by { assert BracketUrl[0..4] == Http; }
    assert Part(BracketUrl, BracketFields, HOST) == BracketUri.host by {
      assert BracketUrl[8..11] == [Colon, Colon, 49];
    }
    assert Part(BracketUrl, BracketFields, PATH) == [Slash] by { assert BracketUrl[12..13] == [Slash]; }
    assert Part(BracketUrl, BracketFields, USERINFO) == [];
    assert DefaultPort(Http) == 80;
  }

  /** The URL http://[::1]/ is accepted, with the host ::1. */
  lemma BracketReads(strict: bool)
    ensures ReadsAs(strict, BracketUrl, 7, 12, ParsedUrl(BracketFields, 0), BracketUri)
  {
    BracketSpan(strict);
    BracketStates(strict, |BracketUrl|);
    BracketHosts(strict, 12);
    BracketMarked(strict);
    BracketParts();
  }

  lemma BracketPrints(strict: bool)
    ensures Printable(strict, BracketUri) && !PlainHost(strict, BracketUri) && Normal(BracketUri) == BracketUri
  {
    assert !IsHostChar(strict, BracketUri.host[0]);
  }

  /** No reading of what that URL prints as gives the URI back. */
  lemma BracketsAreLost(strict: bool, lo: nat, hi: nat, v: ParsedUrl)
    ensures ReadsAs(strict, BracketUrl, 7, 12, ParsedUrl(BracketFields, 0), BracketUri)
    ensures !ReadsAs(strict, ToString(BracketUri), lo, hi, v, BracketUri)
  {
    BracketReads(strict);
    BracketPrints(strict);
    OddDoesNotReadBack(strict, BracketUri, lo, hi, v);
  }
}
