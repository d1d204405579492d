/** The URL parser's character classes and its two state machines. */
module UrlStates {
  import opened Bytes

  const Slash: byte := 47
  const Colon: byte := 58
  const At: byte := 64
  const Question: byte := 63
  const Hash: byte := 35
  const OpenBracket: byte := 91
  const CloseBracket: byte := 93
  const PercentSign: byte := 37

  /** - _ . ! ~ * ' ( ) */
  predicate IsMark(c: byte) {
    c == 45 || c == 95 || c == 46 || c == 33 || c == 126 || c == 42 || c == 39 || c == 40 || c == 41
  }

  /** Letters, digits, marks and % ; : & = + $ , */
  predicate IsUserinfoChar(c: byte) {
    IsAlphaNum(c) || IsMark(c) || c == PercentSign || c == 59 || c == Colon || c == 38 || c == 61 || c == 43
        || c == 36 || c == 44
  }

  predicate IsHostChar(strict: bool, c: byte) { IsAlphaNum(c) || c == 46 || c == 45 || (!strict && c == 95) }

  /** The URL bitmap: printable ASCII but # and ?, and unless strict also tab, form feed and bytes above 127. */
  predicate IsUrlChar(strict: bool, c: byte) {
    (33 <= c <= 126 && c != Hash && c != Question) || (!strict && (c == 9 || c == 12 || c >= 128))
  }

  /** Bytes no URL may have. */
  predicate IsBlank(strict: bool, c: byte) { c == 32 || c == 13 || c == 10 || (strict && (c == 9 || c == 12)) }

  // ---- The URL ---------------------------------------------------------------------------

  datatype UrlState =
    | Dead | SpacesBeforeUrl | Schema | SchemaSlash | SchemaSlashSlash
    | ServerStart | Server | ServerWithAt | Path | QueryStart | Query | FragmentStart | Fragment

  function InServer(c: byte): UrlState {
    if c == Slash then Path
    else if c == Question then QueryStart
    else if c == At then ServerWithAt
    else if IsUserinfoChar(c) || c == OpenBracket || c == CloseBracket then Server
    else Dead
  }

  /** parse_url_char. */
  function UrlNext(strict: bool, q: UrlState, c: byte): UrlState {
    if IsBlank(strict, c) then Dead else
    match q
    case SpacesBeforeUrl => if c == Slash || c == 42 then Path else if IsAlpha(c) then Schema else Dead
    case Schema => if IsAlpha(c) then Schema else if c == Colon then SchemaSlash else Dead
    case SchemaSlash => if c == Slash then SchemaSlashSlash else Dead
    case SchemaSlashSlash => if c == Slash then ServerStart else Dead
    case ServerWithAt => if c == At then Dead else InServer(c)
    case ServerStart => InServer(c)
    case Server => InServer(c)
    case Path =>
      if IsUrlChar(strict, c) then Path
      else if c == Question then QueryStart
      else if c == Hash then FragmentStart
      else Dead
    case QueryStart =>
      if IsUrlChar(strict, c) || c == Question then Query else if c == Hash then FragmentStart else Dead
    case Query => if IsUrlChar(strict, c) || c == Question then Query else if c == Hash then FragmentStart else Dead
    case FragmentStart =>
      if IsUrlChar(strict, c) || c == Question then Fragment else if c == Hash then FragmentStart else Dead
    case Fragment => if IsUrlChar(strict, c) || c == Question || c == Hash then Fragment else Dead
    case Dead => Dead
  }

  // ---- The host --------------------------------------------------------------------------

  datatype HostState =
    | HostDead | UserinfoStart | Userinfo | HostStart | V6Start | Host
    | V6 | V6End | V6ZoneStart | V6Zone | PortStart | Port

  predicate IsZoneChar(c: byte) { IsAlphaNum(c) || c == PercentSign || c == 46 || c == 45 || c == 95 || c == 126 }

  /** http_parse_host_char. */
  function HostNext(strict: bool, q: HostState, c: byte): HostState {
    match q
    case UserinfoStart => if c == At then HostStart else if IsUserinfoChar(c) then Userinfo else HostDead
    case Userinfo => if c == At then HostStart else if IsUserinfoChar(c) then Userinfo else HostDead
    case HostStart => if c == OpenBracket then V6Start else if IsHostChar(strict, c) then Host else HostDead
    case Host => if IsHostChar(strict, c) then Host else if c == Colon then PortStart else HostDead
    case V6End => if c == Colon then PortStart else HostDead
    case V6 =>
      if c == CloseBracket then V6End
      else if IsHexDigit(c) || c == Colon || c == 46 then V6
      else if c == PercentSign then V6ZoneStart
      else HostDead
    case V6Start => if IsHexDigit(c) || c == Colon || c == 46 then V6 else HostDead
    case V6Zone => if c == CloseBracket then V6End else if IsZoneChar(c) then V6Zone else HostDead
    case V6ZoneStart => if IsZoneChar(c) then V6Zone else HostDead
    case Port => if IsNum(c) then Port else HostDead
    case PortStart => if IsNum(c) then Port else HostDead
    case HostDead => HostDead
  }

  /** Where a host may end. */
  predicate HostMayEnd(q: HostState) { q == Host || q == V6End || q == Port }

  // ---- Fields ----------------------------------------------------------------------------

  datatype Field = SCHEMA | USERINFO | HOST | PORT | PATH | QUERY | FRAGMENT

  /** The field a byte belongs to, from the state it leads to; a delimiter belongs to none. */
  function UrlField(q: UrlState): Option<Field> {
    match q
    case Schema => Some(SCHEMA)
    case ServerWithAt => Some(HOST)
    case Server => Some(HOST)
    case Path => Some(PATH)
    case Query => Some(QUERY)
    case Fragment => Some(FRAGMENT)
    case _ => None
  }

  function HostField(q: HostState): Option<Field> {
    match q
    case Userinfo => Some(USERINFO)
    case Host => Some(HOST)
    case V6 => Some(HOST)
    case V6ZoneStart => Some(HOST)
    case V6Zone => Some(HOST)
    case Port => Some(PORT)
    case _ => None
  }

  /** The order of the states along a URL. */
  function UrlRank(q: UrlState): nat {
    match q
    case SpacesBeforeUrl => 0
    case Schema => 1
    case SchemaSlash => 2
    case SchemaSlashSlash => 3
    case ServerStart => 4
    case Server => 5
    case ServerWithAt => 5
    case Path => 6
    case QueryStart => 7
    case Query => 8
    case FragmentStart => 9
    case Fragment => 10
    case Dead => 11
  }

  function HostRank(q: HostState): nat {
    match q
    case UserinfoStart => 0
    case Userinfo => 1
    case HostStart => 2
    case V6Start => 3
    case Host => 4
    case V6 => 4
    case V6ZoneStart => 4
    case V6Zone => 4
    case V6End => 5
    case PortStart => 6
    case Port => 7
    case HostDead => 8
  }

  /** A URL only ever goes forward, so each field is one stretch. */
  lemma UrlForward(strict: bool, q: UrlState, c: byte)
    ensures UrlRank(q) <= UrlRank(UrlNext(strict, q, c))
    ensures UrlNext(strict, q, c) != Dead && UrlField(UrlNext(strict, q, c)).None? ==>
            c == Colon || c == Slash || c == Question || c == Hash
  {
  }

  lemma HostForward(strict: bool, q: HostState, c: byte)
    ensures HostRank(q) <= HostRank(HostNext(strict, q, c))
    ensures HostNext(strict, q, c) != HostDead && HostField(HostNext(strict, q, c)).None? ==>
            c == At || c == OpenBracket || c == CloseBracket || c == Colon
  {
  }
}
