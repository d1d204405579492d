/** The percent codec for URL text. */
module UrlCodec {
  import opened Bytes

  const Space: byte := 32
  const Percent: byte := 37
  const Ampersand: byte := 38
  const Plus: byte := 43
  const Equals: byte := 61

  /** The table of characters left as they are; it has '=' besides letters, digits and -._~ */
  predicate Unreserved(c: byte) {
    IsAlphaNum(c) || c == 45 || c == 46 || c == Equals || c == 95 || c == 126
  }

  /** The table of digit values; every other character has the value zero. */
  function XDigit(c: byte): (v: byte)
    ensures v < 16
  {
    if IsNum(c) then c - 48 else if 65 <= c <= 70 then c - 55 else if 97 <= c <= 102 then c - 87 else 0
  }

  // ---- Specification ---------------------------------------------------------------------

  /** What one character becomes. */
  function EncodedChar(c: byte, plus: bool): (r: seq<byte>)
    ensures |r| >= 1
  {
    if Unreserved(c) then [c]
    else if c == Space && plus then [Plus]
    else [Percent, HexDigit(c / 16), HexDigit(c % 16)]
  }

  /** What the first `n` characters become. */
  function EncodedTo(s: seq<byte>, n: nat, plus: bool): seq<byte>
    requires n <= |s|
  {
    if n == 0 then [] else EncodedTo(s, n - 1, plus) + EncodedChar(s[n - 1], plus)
  }

  function Encoded(s: seq<byte>, plus: bool): seq<byte> { EncodedTo(s, |s|, plus) }

  /** Whether an escape starts at `i`. */
  predicate EscapeAt(s: seq<byte>, i: nat) {
    i + 2 < |s| && s[i] == Percent && IsHexDigit(s[i + 1]) && IsHexDigit(s[i + 2])
  }

  /** What the text from `i` on stands for. */
  function DecodedFrom(s: seq<byte>, i: nat, plus: bool): seq<byte>
    requires i <= |s|
    decreases |s| - i
  {
    if i == |s| then []
    else if s[i] == Plus && plus then [Space] + DecodedFrom(s, i + 1, plus)
    else if EscapeAt(s, i) then [XDigit(s[i + 1]) * 16 + XDigit(s[i + 2])] + DecodedFrom(s, i + 3, plus)
    else [s[i]] + DecodedFrom(s, i + 1, plus)
  }

  function Decoded(s: seq<byte>, plus: bool): seq<byte> { DecodedFrom(s, 0, plus) }

  // ---- The loops -------------------------------------------------------------------------

  /** The output so far: the lazily created string, or the text itself up to `c`. */
  function Output(ss: Option<seq<byte>>, str: seq<byte>, c: nat): seq<byte>
    requires c <= |str|
  {
    if ss.None? then str[..c] else ss.value
  }

  /** One round of the scan: the output is created at the first character that changes. */
  method EncodeOne(str: seq<byte>, ss: Option<seq<byte>>, c: nat, plus: bool) returns (ss': Option<seq<byte>>)
    requires c < |str|
    ensures Output(ss', str, c + 1) == Output(ss, str, c) + EncodedChar(str[c], plus)
  {
    ss' := ss;
    if !Unreserved(str[c]) {
      if ss'.None? {
        ss' := Some(str[..c]);
      }
      if str[c] == Space && plus {
        ss' := Some(ss'.value + [Plus]);
      } else {
        ss' := Some(ss'.value + [Percent, HexDigit(str[c] / 16), HexDigit(str[c] % 16)]);
      }
    } else if ss'.Some? {
      ss' := Some(ss'.value + [str[c]]);
    }
  }

  method UrlEncode(str: seq<byte>, plus: bool) returns (r: seq<byte>)
    ensures r == Encoded(str, plus)
  {
    var ss: Option<seq<byte>> := None;
    for c := 0 to |str|
      invariant EncodedTo(str, c, plus) == Output(ss, str, c)
    {
      ss := EncodeOne(str, ss, c, plus);
    }
    r := Output(ss, str, |str|);
  }

  /** The character at `i` of encoded text, and where the next one starts. */
  function DecodedChar(s: seq<byte>, i: nat, plus: bool): (r: (byte, nat))
    requires i < |s|
    ensures i < r.1 <= |s|
  {
    if s[i] == Plus && plus then (Space, i + 1)
    else if EscapeAt(s, i) then (XDigit(s[i + 1]) * 16 + XDigit(s[i + 2]), i + 3)
    else (s[i], i + 1)
  }

  lemma MoveOver(done: seq<byte>, s: seq<byte>, i: nat, plus: bool)
    requires i < |s|
    ensures var (x, j) := DecodedChar(s, i, plus);
            done + DecodedFrom(s, i, plus) == (done + [x]) + DecodedFrom(s, j, plus)
  {
    var (x, j) := DecodedChar(s, i, plus);
    assert DecodedFrom(s, i, plus) == [x] + DecodedFrom(s, j, plus);
  }

  /** One round of the scan: a character of the text, appended unless nothing has changed so far. */
  method DecodeOne(str: seq<byte>, ss: Option<seq<byte>>, c: nat, plus: bool) returns (ss': Option<seq<byte>>, c': nat)
    requires c < |str|
    ensures var (x, j) := DecodedChar(str, c, plus); c' == j && Output(ss', str, c') == Output(ss, str, c) + [x]
  {
    c', ss' := c, ss;
    if str[c] == Plus && plus {
      ss' := Some(Output(ss, str, c) + [Space]);
    } else if EscapeAt(str, c) {
      ss' := Some(Output(ss, str, c) + [XDigit(str[c + 1]) * 16 + XDigit(str[c + 2])]);
      c' := c + 2;
    } else if ss.Some? {
      ss' := Some(ss.value + [str[c]]);
    }
    c' := c' + 1;
  }

  method UrlDecode(str: seq<byte>, plus: bool) returns (r: seq<byte>)
    ensures r == Decoded(str, plus)
  {
    var ss: Option<seq<byte>> := None;
    var c := 0;
    while c < |str|
      invariant 0 <= c <= |str|
      invariant Decoded(str, plus) == Output(ss, str, c) + DecodedFrom(str, c, plus)
    {
      MoveOver(Output(ss, str, c), str, c, plus);
      ss, c := DecodeOne(str, ss, c, plus);
    }
    r := Output(ss, str, |str|);
  }

  // ---- Inversion -------------------------------------------------------------------------

  /** Characters that come back: all of them, unless a space was written as a plus that is not read as one. */
  predicate Restored(c: byte, encPlus: bool, decPlus: bool) { c == Space && encPlus ==> decPlus }

  function Back(c: byte, encPlus: bool, decPlus: bool): byte {
    if Restored(c, encPlus, decPlus) then c else Plus
  }

  /** The code of `c` at `i` is read back, and nothing else is touched. */
  lemma CharInverts(s: seq<byte>, i: nat, c: byte, encPlus: bool, decPlus: bool)
    requires Occurs(s, i, EncodedChar(c, encPlus))
    ensures var k := |EncodedChar(c, encPlus)|;
            DecodedFrom(s, i, decPlus) == [Back(c, encPlus, decPlus)] + DecodedFrom(s, i + k, decPlus)
  {
    var e := EncodedChar(c, encPlus);
    assert s[i] == e[0];
    if |e| == 3 {
      assert s[i + 1] == e[1] && s[i + 2] == e[2];
      assert c == c / 16 * 16 + c % 16;
    }
  }

  /** `d` is what comes back of `s` from `i` on. */
  ghost predicate ComesBack(d: seq<byte>, s: seq<byte>, i: nat, encPlus: bool, decPlus: bool) {
    i + |d| == |s| && forall j :: 0 <= j < |d| ==> d[j] == Back(s[i + j], encPlus, decPlus)
  }

  lemma BackNext(d: seq<byte>, s: seq<byte>, i: nat, encPlus: bool, decPlus: bool)
    requires i < |s| && ComesBack(d, s, i + 1, encPlus, decPlus)
    ensures ComesBack([Back(s[i], encPlus, decPlus)] + d, s, i, encPlus, decPlus)
  {
  }

  lemma {:induction false} EncodedOccurs(s: seq<byte>, i: nat, n: nat, plus: bool)
    requires i < n <= |s|
    ensures Occurs(EncodedTo(s, n, plus), |EncodedTo(s, i, plus)|, EncodedChar(s[i], plus))
    decreases n
  {
    if i < n - 1 { EncodedOccurs(s, i, n - 1, plus); }
  }

  lemma {:induction false} DecodesFrom(s: seq<byte>, i: nat, encPlus: bool, decPlus: bool, e: seq<byte>, at: nat)
    requires i <= |s| && e == Encoded(s, encPlus) && at == |EncodedTo(s, i, encPlus)|
    ensures at <= |e| && ComesBack(DecodedFrom(e, at, decPlus), s, i, encPlus, decPlus)
    decreases |s| - i
  {
    if i < |s| {
      var next := at + |EncodedChar(s[i], encPlus)|;
      EncodedOccurs(s, i, |s|, encPlus);
      DecodesFrom(s, i + 1, encPlus, decPlus, e, next);
      CharInverts(e, at, s[i], encPlus, decPlus);
      BackNext(DecodedFrom(e, next, decPlus), s, i, encPlus, decPlus);
    }
  }

  /** Decoding undoes encoding exactly when no space was written as a plus that is not read as one. */
  lemma DecodeInvertsEncode(s: seq<byte>, encPlus: bool, decPlus: bool)
    ensures Decoded(Encoded(s, encPlus), decPlus) == s <==>
            (forall i :: 0 <= i < |s| ==> Restored(s[i], encPlus, decPlus))
  {
    DecodesFrom(s, 0, encPlus, decPlus, Encoded(s, encPlus), 0);
    var d := Decoded(Encoded(s, encPlus), decPlus);
    assert forall i :: 0 <= i < |s| ==> d[i] == Back(s[0 + i], encPlus, decPlus);
    if d == s {
      forall i | 0 <= i < |s|
        ensures Restored(s[i], encPlus, decPlus)
      {
        assert d[i] == s[i];
      }
    }
  }

  /** A space written as a plus and not read as one comes back as a plus. */
  lemma SpaceBecomesPlus()
    ensures Decoded(Encoded([Space], true), false) == [Plus]
  {
    DecodesFrom([Space], 0, true, false, Encoded([Space], true), 0);
    var d := Decoded(Encoded([Space], true), false);
    assert d[0] == Back([Space][0 + 0], true, false);
  }
}
