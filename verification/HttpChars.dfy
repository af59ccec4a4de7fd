/** The character classes of http_parser.c in strict mode, and its URL states. A byte is
    a character below 256. */
module HttpChars {

  const CR: char := '\r'
  const LF: char := '\n'

  /** LOWER: sets one bit, so that it is a lower-case conversion for letters only. */
  function Lower(c: char): char {
    if c < '\U{80}' && c as int / 32 % 2 == 0 then (c as int + 32) as char else c
  }

  predicate IsAlpha(c: char) { 'a' <= Lower(c) <= 'z' }

  predicate IsNum(c: char) { '0' <= c <= '9' }

  predicate AllNum(s: string) { forall i :: 0 <= i < |s| ==> IsNum(s[i]) }

  predicate IsAlphanum(c: char) { IsAlpha(c) || IsNum(c) }

  predicate IsHex(c: char) { IsNum(c) || 'a' <= Lower(c) <= 'f' }

  predicate IsMark(c: char) { c in "-_.!~*'()" }

  predicate IsUserinfoChar(c: char) { IsAlphanum(c) || IsMark(c) || c in "%;:&=+$," }

  predicate IsHostChar(c: char) { IsAlphanum(c) || c == '.' || c == '-' }

  /** The characters of URLs, except for '?' and '#'. */
  predicate IsUrlChar(c: char) { '!' <= c <= '~' && c != '?' && c != '#' }

  /** TOKEN: the character in lower case, or none if it is not one of a token. */
  predicate IsToken(c: char) { IsAlphanum(c) || c in "!#$%&'*+-.^_`|~" }

  function Token(c: char): char { if 'A' <= c <= 'Z' then Lower(c) else c }

  /** The value of a hexadecimal digit; the table has only 128 entries that are not 0. */
  function Unhex(c: char): int {
    if IsNum(c) then c as int - '0' as int
    else if 'a' <= c <= 'f' then c as int - 'a' as int + 10
    else if 'A' <= c <= 'F' then c as int - 'A' as int + 10
    else if c < '\U{80}' then -1
    else 0
  }

  // ----- URLs -----

  /** The parts of a URL, each named by its state in the source. */
  datatype Part =
    | Schema | SchemaSlash | SchemaSlashSlash
    | ServerStart | Server | ServerWithAt
    | Path | QueryStringStart | QueryString | FragmentStart | Fragment

  datatype MaybePart = NoPart | InPart(part: Part)

  predicate IsUrlEnd(c: char) { c in " \r\n\t\U{c}" }

  /** parse_url_char in s_req_spaces_before_url. */
  function StartUrl(c: char): MaybePart {
    if c == '/' || c == '*' then InPart(Path) else if IsAlpha(c) then InPart(Schema) else NoPart
  }

  /** parse_url_char in the states inside a URL; none if the character is refused. */
  function ParseUrlChar(s: Part, c: char): MaybePart {
    if IsUrlEnd(c) then NoPart
    else
      match s
      case Schema => if IsAlpha(c) then InPart(Schema) else if c == ':' then InPart(SchemaSlash) else NoPart
      case SchemaSlash => if c == '/' then InPart(SchemaSlashSlash) else NoPart
      case SchemaSlashSlash => if c == '/' then InPart(ServerStart) else NoPart
      case ServerWithAt => if c == '@' then NoPart else ServerChar(c)
      case ServerStart => ServerChar(c)
      case Server => ServerChar(c)
      case Path =>
        if IsUrlChar(c) then InPart(Path)
        else if c == '?' then InPart(QueryStringStart) else if c == '#' then InPart(FragmentStart) else NoPart
      case QueryStringStart => QueryChar(c)
      case QueryString => QueryChar(c)
      case FragmentStart =>
        if IsUrlChar(c) || c == '?' then InPart(Fragment) else if c == '#' then InPart(FragmentStart) else NoPart
      case Fragment => if IsUrlChar(c) || c == '?' || c == '#' then InPart(Fragment) else NoPart
  }

  function ServerChar(c: char): MaybePart {
    if c == '/' then InPart(Path)
    else if c == '?' then InPart(QueryStringStart)
    else if c == '@' then InPart(ServerWithAt)
    else if IsUserinfoChar(c) || c == '[' || c == ']' then InPart(Server)
    else NoPart
  }

  function QueryChar(c: char): MaybePart {
    if IsUrlChar(c) || c == '?' then InPart(QueryString) else if c == '#' then InPart(FragmentStart) else NoPart
  }
}
