/** The transitions of http_parser.c, one byte at a time, with the header size limit
    removed, without an on_headers_complete callback, and with other callbacks that only
    observe. This is what the parser computes; HttpParser computes it over whole buffers,
    with loops that take many bytes at once. */
module HttpSteps {
  import opened HttpChars

  const ULLONG_MAX: nat := 0xffff_ffff_ffff_ffff

  datatype Kind = Request | Response | Both

  /** Where the parser is. The source has one enumeration; here the states in which bytes
      belong to a field, and those of chunks, stand apart. */
  datatype State =
    | At(place: Place)
    | InUrl(part: Part) | InStatus | InField | InValue
    | AtChunk(chunk: ChunkPlace) | InChunk | InBody | InBodyToEof

  datatype Place =
    | Dead
    | StartReqOrRes | ResOrRespH | StartRes
    | ResH | ResHT | ResHTT | ResHTTP
    | ResFirstMajor | ResMajor | ResFirstMinor | ResMinor
    | ResFirstStatusCode | ResStatusCode | ResStatusStart | ResLineAlmostDone
    | StartReq | ReqMethod | ReqSpacesBeforeUrl
    | ReqHttpStart | ReqH | ReqHT | ReqHTT | ReqHTTP
    | ReqFirstMajor | ReqMajor | ReqFirstMinor | ReqMinor | ReqLineAlmostDone
    | FieldStart
    | ValueDiscardWs | ValueDiscardWsAlmostDone | ValueDiscardLws | ValueStart | ValueLws | HeaderAlmostDone
    | HeadersAlmostDone | HeadersDone
    | MessageDone

  datatype ChunkPlace = SizeStart | Size | Parameters | SizeAlmostDone | DataAlmostDone | DataDone

  datatype HeaderState =
    | General
    | C | CO | CON
    | MatchingConnection | MatchingProxyConnection | MatchingContentLength | MatchingTransferEncoding | MatchingUpgrade
    | Connection | ContentLength | TransferEncoding | Upgrade
    | MatchingChunked
    | TokenStart | MatchingKeepAlive | MatchingClose | MatchingConnectionUpgrade | ConnectionToken
    | Chunked | KeepAlive | Close | ConnectionUpgrade

  datatype Flags = Flags(chunked: bool, keepAlive: bool, close: bool, connectionUpgrade: bool, trailing: bool,
                         upgrade: bool)

  const NO_FLAGS := Flags(false, false, false, false, false, false)

  datatype Errno =
    | OK
    | INVALID_EOF_STATE | CLOSED_CONNECTION | INVALID_VERSION | INVALID_STATUS | INVALID_METHOD | INVALID_URL
    | LF_EXPECTED | INVALID_HEADER_TOKEN | INVALID_CONTENT_LENGTH | INVALID_CHUNK_SIZE | INVALID_CONSTANT | STRICT

  datatype Field = OnUrl | OnStatus | OnHeaderField | OnHeaderValue | OnBody

  /** A callback: a notification, or data of a field. */
  datatype Event = MessageBegin | MessageComplete | Data(field: Field, bytes: string)

  datatype Parser = Parser(kind: Kind, state: State, headerState: HeaderState, index: nat, flags: Flags,
                           contentLength: nat, major: nat, minor: nat, status: nat, verb: Method, upgrade: bool)
  {
    /** http_message_needs_eof */
    predicate NeedsEof() {
      kind != Request && !(status / 100 == 1 || status == 204 || status == 304) &&
      !flags.chunked && contentLength == ULLONG_MAX
    }

    /** http_should_keep_alive */
    predicate ShouldKeepAlive() {
      (if major > 0 && minor > 0 then !flags.close else flags.keepAlive) && !NeedsEof()
    }

    function NewMessage(): State {
      At(if ShouldKeepAlive() then (if kind == Request then StartReq else StartRes) else Dead)
    }
  }

  /** http_parser_init */
  function Initial(kind: Kind): Parser {
    Parser(kind, At(match kind case Request => StartReq case Response => StartRes case Both => StartReqOrRes),
           General, 0, NO_FLAGS, 0, 0, 0, 0, DELETE, false)
  }

  /** What a turn does: an error, or the new state, the callbacks, and whether the byte is
      to be looked at again, or parsing stops after it for another protocol. */
  datatype Effect = Error(errno: Errno) | Effect(p: Parser, events: seq<Event>, again: bool, stop: bool)

  function To(p: Parser, s: State): Effect { Effect(p.(state := s), [], false, false) }

  function Go(p: Parser, s: Place): Effect { To(p, At(s)) }

  function Stay(p: Parser): Effect { Effect(p, [], false, false) }

  function Again(p: Parser, s: Place): Effect { Effect(p.(state := At(s)), [], true, false) }

  /** The byte belongs to a field. */
  function Take(p: Parser, f: Field, c: char): Effect { Effect(p, [Data(f, [c])], false, false) }

  function Expect(p: Parser, c: char, want: char, s: Place): Effect {
    if c == want then Go(p, s) else Error(STRICT)
  }

  // ----- methods -----

  datatype Method =
    | DELETE | GET | HEAD | POST | PUT | CONNECT | OPTIONS | TRACE
    | COPY | LOCK | MKCOL | MOVE | PROPFIND | PROPPATCH | SEARCH | UNLOCK
    | REPORT | MKACTIVITY | CHECKOUT | MERGE | MSEARCH | NOTIFY | SUBSCRIBE | UNSUBSCRIBE
    | PATCH | PURGE | MKCALENDAR

  function Name(m: Method): (s: string)
    ensures |s| >= 3
  {
    match m
    case DELETE => "DELETE" case GET => "GET" case HEAD => "HEAD" case POST => "POST" case PUT => "PUT"
    case CONNECT => "CONNECT" case OPTIONS => "OPTIONS" case TRACE => "TRACE" case COPY => "COPY"
    case LOCK => "LOCK" case MKCOL => "MKCOL" case MOVE => "MOVE" case PROPFIND => "PROPFIND"
    case PROPPATCH => "PROPPATCH" case SEARCH => "SEARCH" case UNLOCK => "UNLOCK" case REPORT => "REPORT"
    case MKACTIVITY => "MKACTIVITY" case CHECKOUT => "CHECKOUT" case MERGE => "MERGE" case MSEARCH => "M-SEARCH"
    case NOTIFY => "NOTIFY" case SUBSCRIBE => "SUBSCRIBE" case UNSUBSCRIBE => "UNSUBSCRIBE" case PATCH => "PATCH"
    case PURGE => "PURGE" case MKCALENDAR => "MKCALENDAR"
  }

  /** A character of a C string, with the zero at its end. */
  function CharAt(s: string, i: nat): char { if i < |s| then s[i] else '\0' }

  /** The method to start with, by its first letter. */
  function FirstMethod(c: char): Method {
    if c == 'C' then CONNECT else if c == 'D' then DELETE else if c == 'G' then GET else if c == 'H' then HEAD
    else if c == 'L' then LOCK else if c == 'M' then MKCOL else if c == 'N' then NOTIFY else if c == 'O' then OPTIONS
    else if c == 'P' then POST else if c == 'R' then REPORT else if c == 'S' then SUBSCRIBE
    else if c == 'T' then TRACE else UNLOCK
  }

  predicate IsMethodLetter(c: char) { c in "CDGHLMNOPRSTU" }

  /** Another method that starts like `m` and goes on with `c` at `i`; `m` if none. */
  function OtherMethod(m: Method, i: nat, c: char): Method {
    if m == CONNECT then (if i == 1 && c == 'H' then CHECKOUT else if i == 2 && c == 'P' then COPY else m)
    else if m == MKCOL then
      if i == 1 && c == 'O' then MOVE
      else if i == 1 && c == 'E' then MERGE
      else if i == 1 && c == '-' then MSEARCH
      else if i == 2 && c == 'A' then MKACTIVITY
      else if i == 3 && c == 'A' then MKCALENDAR
      else m
    else if m == SUBSCRIBE then (if i == 1 && c == 'E' then SEARCH else m)
    else if i == 1 && m == POST then
      (if c == 'R' then PROPFIND else if c == 'U' then PUT else if c == 'A' then PATCH else m)
    else if i == 2 then (if m == PUT && c == 'R' then PURGE else if m == UNLOCK && c == 'S' then UNSUBSCRIBE else m)
    else if i == 4 && m == PROPFIND && c == 'P' then PROPPATCH
    else m
  }

  function MethodStep(p: Parser, c: char): Effect {
    var want := CharAt(Name(p.verb), p.index);
    if c == '\0' then Error(INVALID_METHOD)
    else if c == ' ' && want == '\0' then Go(p.(index := p.index + 1), ReqSpacesBeforeUrl)
    else if c == want then Stay(p.(index := p.index + 1))
    else if OtherMethod(p.verb, p.index, c) != p.verb then
      Stay(p.(verb := OtherMethod(p.verb, p.index, c), index := p.index + 1))
    else Error(INVALID_METHOD)
  }

  // ----- start and first line -----

  function Digit(c: char): int { c as int - '0' as int }

  function StartStep(p: Parser, at: Place, c: char): Effect {
    var q := p.(flags := NO_FLAGS, contentLength := ULLONG_MAX);
    match at
    case Dead => if c == CR || c == LF then Stay(p) else Error(CLOSED_CONNECTION)
    case StartReqOrRes =>
      if c == CR || c == LF then Stay(p)
      else if c == 'H' then Effect(q.(state := At(ResOrRespH)), [MessageBegin], false, false)
      else Again(q.(kind := Request), StartReq)
    case ResOrRespH =>
      if c == 'T' then Go(p.(kind := Response), ResHT)
      else if c != 'E' then Error(INVALID_CONSTANT)
      else Go(p.(kind := Request, verb := HEAD, index := 2), ReqMethod)
    case StartRes =>
      if c == 'H' then Effect(q.(state := At(ResH)), [MessageBegin], false, false)
      else if c == CR || c == LF then Effect(q, [MessageBegin], false, false)
      else Error(INVALID_CONSTANT)
    case _ =>
      if c == CR || c == LF then Stay(p)
      else if !IsAlpha(c) || !IsMethodLetter(c) then Error(INVALID_METHOD)
      else Effect(q.(verb := FirstMethod(c), index := 1, state := At(ReqMethod)), [MessageBegin], false, false)
  }

  /** The number `n` with one more digit. */
  function Extend(n: nat, c: char): nat
    requires IsNum(c)
  {
    10 * n + Digit(c)
  }

  function ResponseStep(p: Parser, at: Place, c: char): Effect {
    match at
    case ResH => Expect(p, c, 'T', ResHT)
    case ResHT => Expect(p, c, 'T', ResHTT)
    case ResHTT => Expect(p, c, 'P', ResHTTP)
    case ResHTTP => Expect(p, c, '/', ResFirstMajor)
    case ResFirstMajor =>
      if !IsNum(c) then Error(INVALID_VERSION) else Go(p.(major := Digit(c)), ResMajor)
    case ResMajor =>
      if c == '.' then Go(p, ResFirstMinor)
      else if !IsNum(c) || Extend(p.major, c) > 999 then Error(INVALID_VERSION)
      else Stay(p.(major := Extend(p.major, c)))
    case ResFirstMinor =>
      if !IsNum(c) then Error(INVALID_VERSION) else Go(p.(minor := Digit(c)), ResMinor)
    case ResMinor =>
      if c == ' ' then Go(p, ResFirstStatusCode)
      else if !IsNum(c) || Extend(p.minor, c) > 999 then Error(INVALID_VERSION)
      else Stay(p.(minor := Extend(p.minor, c)))
    case ResFirstStatusCode =>
      if IsNum(c) then Go(p.(status := Digit(c)), ResStatusCode)
      else if c == ' ' then Stay(p)
      else Error(INVALID_STATUS)
    case ResStatusCode =>
      if IsNum(c) then
        (if Extend(p.status, c) > 999 then Error(INVALID_STATUS) else Stay(p.(status := Extend(p.status, c))))
      else if c == ' ' then Go(p, ResStatusStart)
      else if c == CR then Go(p, ResLineAlmostDone)
      else if c == LF then Go(p, FieldStart)
      else Error(INVALID_STATUS)
    case ResStatusStart =>
      if c == CR then Go(p, ResLineAlmostDone)
      else if c == LF then Go(p, FieldStart)
      else Take(p.(state := InStatus, index := 0), OnStatus, c)
    case _ => Expect(p, c, LF, FieldStart)
  }

  function StatusStep(p: Parser, c: char): Effect {
    if c == CR then Go(p, ResLineAlmostDone) else if c == LF then Go(p, FieldStart) else Take(p, OnStatus, c)
  }

  function UrlChar(p: Parser, next: MaybePart, c: char): Effect {
    if next == NoPart then Error(INVALID_URL) else Take(p.(state := InUrl(next.part)), OnUrl, c)
  }

  function RequestStep(p: Parser, at: Place, c: char): Effect {
    match at
    case ReqMethod => MethodStep(p, c)
    case ReqSpacesBeforeUrl =>
      if c == ' ' then Stay(p)
      else UrlChar(p, if p.verb == CONNECT then ParseUrlChar(ServerStart, c) else StartUrl(c), c)
    case ReqHttpStart =>
      if c == 'H' then Go(p, ReqH) else if c == ' ' then Stay(p) else Error(INVALID_CONSTANT)
    case ReqH => Expect(p, c, 'T', ReqHT)
    case ReqHT => Expect(p, c, 'T', ReqHTT)
    case ReqHTT => Expect(p, c, 'P', ReqHTTP)
    case ReqHTTP => Expect(p, c, '/', ReqFirstMajor)
    case ReqFirstMajor =>
      if !IsNum(c) || c == '0' then Error(INVALID_VERSION) else Go(p.(major := Digit(c)), ReqMajor)
    case ReqMajor =>
      if c == '.' then Go(p, ReqFirstMinor)
      else if !IsNum(c) || Extend(p.major, c) > 999 then Error(INVALID_VERSION)
      else Stay(p.(major := Extend(p.major, c)))
    case ReqFirstMinor =>
      if !IsNum(c) then Error(INVALID_VERSION) else Go(p.(minor := Digit(c)), ReqMinor)
    case ReqMinor =>
      if c == CR then Go(p, ReqLineAlmostDone)
      else if c == LF then Go(p, FieldStart)
      else if !IsNum(c) || Extend(p.minor, c) > 999 then Error(INVALID_VERSION)
      else Stay(p.(minor := Extend(p.minor, c)))
    case _ => if c != LF then Error(LF_EXPECTED) else Go(p, FieldStart)
  }

  /** A URL may end the line (HTTP 0.9), but not before its server or path. */
  function UrlStep(p: Parser, part: Part, c: char): Effect {
    if c == ' ' || c == CR || c == LF then
      if part.Schema? || part.SchemaSlash? || part.SchemaSlashSlash? || part.ServerStart? then Error(INVALID_URL)
      else if c == ' ' then Go(p, ReqHttpStart)
      else Go(p.(major := 0, minor := 9), if c == CR then ReqLineAlmostDone else FieldStart)
    else UrlChar(p, ParseUrlChar(part, c), c)
  }

  // ----- headers -----

  /** Goes on matching a name that is looked for: to `found` at its last character, to
      `lost` if it differs. */
  function Match(name: string, i: nat, c: char, self: HeaderState, found: HeaderState, lost: HeaderState): HeaderState {
    if i > |name| || c != CharAt(name, i) then lost else if i == |name| - 1 then found else self
  }

  function NameStart(c: char): HeaderState {
    if c == 'c' then C
    else if c == 'p' then MatchingProxyConnection
    else if c == 't' then MatchingTransferEncoding
    else if c == 'u' then MatchingUpgrade
    else General
  }

  /** The header state and index after a character `ch` of a field name. */
  function FieldChar(h: HeaderState, i: nat, ch: char): (HeaderState, nat) {
    var c := Token(ch);
    match h
    case C => (if c == 'o' then CO else General, i + 1)
    case CO => (if c == 'n' then CON else General, i + 1)
    case CON => (if c == 'n' then MatchingConnection else if c == 't' then MatchingContentLength else General, i + 1)
    case MatchingConnection => (Match("connection", i + 1, c, h, Connection, General), i + 1)
    case MatchingProxyConnection => (Match("proxy-connection", i + 1, c, h, Connection, General), i + 1)
    case MatchingContentLength => (Match("content-length", i + 1, c, h, ContentLength, General), i + 1)
    case MatchingTransferEncoding => (Match("transfer-encoding", i + 1, c, h, TransferEncoding, General), i + 1)
    case MatchingUpgrade => (Match("upgrade", i + 1, c, h, Upgrade, General), i + 1)
    case Connection => (if ch != ' ' then General else h, i)
    case ContentLength => (if ch != ' ' then General else h, i)
    case TransferEncoding => (if ch != ' ' then General else h, i)
    case Upgrade => (if ch != ' ' then General else h, i)
    case _ => (h, i)
  }

  function FieldStep(p: Parser, c: char): Effect {
    if !IsToken(c) then (if c == ':' then Go(p, ValueDiscardWs) else Error(INVALID_HEADER_TOKEN))
    else
      var (h, i) := FieldChar(p.headerState, p.index, c);
      Take(p.(headerState := h, index := i), OnHeaderField, c)
  }

  function FieldStartStep(p: Parser, c: char): Effect {
    if c == CR then Go(p, HeadersAlmostDone)
    else if c == LF then Again(p, HeadersAlmostDone)
    else if !IsToken(c) then Error(INVALID_HEADER_TOKEN)
    else Take(p.(state := InField, index := 0, headerState := NameStart(Token(c))), OnHeaderField, c)
  }

  function ValueFirst(p: Parser, ch: char): Effect {
    var c, q := Lower(ch), p.(state := InValue, index := 0);
    match p.headerState
    case Upgrade => Take(q.(flags := q.flags.(upgrade := true), headerState := General), OnHeaderValue, ch)
    case TransferEncoding => Take(q.(headerState := if c == 'c' then MatchingChunked else General), OnHeaderValue, ch)
    case ContentLength =>
      if !IsNum(ch) then Error(INVALID_CONTENT_LENGTH) else Take(q.(contentLength := Digit(ch)), OnHeaderValue, ch)
    case Connection => Take(q.(headerState := ConnectionStart(c)), OnHeaderValue, ch)
    case TokenStart => Take(q, OnHeaderValue, ch)
    case _ => Take(q.(headerState := General), OnHeaderValue, ch)
  }

  function ConnectionStart(c: char): HeaderState {
    if c == 'k' then MatchingKeepAlive
    else if c == 'c' then MatchingClose
    else if c == 'u' then MatchingConnectionUpgrade
    else ConnectionToken
  }

  /** A token of a Connection header that is complete sets its flag. */
  function WithToken(h: HeaderState, f: Flags): Flags {
    match h
    case KeepAlive => f.(keepAlive := true)
    case Close => f.(close := true)
    case ConnectionUpgrade => f.(connectionUpgrade := true)
    case _ => f
  }

  function EndValue(h: HeaderState, f: Flags): Flags { if h == Chunked then f.(chunked := true) else WithToken(h, f) }

  predicate TokenDone(h: HeaderState) { h.KeepAlive? || h.Close? || h.ConnectionUpgrade? }

  /** The header state after a character of a value; `i` is the index of the character in
      a token that is matched. */
  function ValueState(h: HeaderState, i: nat, ch: char): HeaderState {
    var c := Lower(ch);
    match h
    case MatchingChunked => Match("chunked", i, c, h, Chunked, General)
    case TokenStart =>
      if c in "kcu" then ConnectionStart(c)
      else if IsToken(c) then ConnectionToken
      else if c == ' ' || c == '\t' then h
      else General
    case MatchingKeepAlive => Match("keep-alive", i, c, h, KeepAlive, ConnectionToken)
    case MatchingClose => Match("close", i, c, h, Close, ConnectionToken)
    case MatchingConnectionUpgrade => Match("upgrade", i, c, h, ConnectionUpgrade, ConnectionToken)
    case ConnectionToken => if ch == ',' then TokenStart else h
    case Chunked => if ch != ' ' then General else h
    case _ =>
      if !TokenDone(h) then General else if ch == ',' then TokenStart else if ch != ' ' then ConnectionToken else h
  }

  function ValueIndex(h: HeaderState, i: nat, ch: char): nat {
    if h.MatchingChunked? || h.MatchingKeepAlive? || h.MatchingClose? || h.MatchingConnectionUpgrade? then i + 1
    else if (h.ConnectionToken? || TokenDone(h)) && ch == ',' then 0
    else i
  }

  function LengthChar(p: Parser, c: char): Effect {
    if c == ' ' then Take(p, OnHeaderValue, c)
    else if !IsNum(c) || (ULLONG_MAX - 10) / 10 < p.contentLength then Error(INVALID_CONTENT_LENGTH)
    else Take(p.(contentLength := Extend(p.contentLength, c)), OnHeaderValue, c)
  }

  /** A character of a header value, other than the end of the line. */
  function ValueChar(p: Parser, c: char): Effect {
    var h := p.headerState;
    if h.ContentLength? then LengthChar(p, c)
    else
      Take(p.(headerState := ValueState(h, p.index + 1, c), index := ValueIndex(h, p.index, c),
              flags := if c == ',' then WithToken(h, p.flags) else p.flags), OnHeaderValue, c)
  }

  function ValueStep(p: Parser, c: char): Effect {
    if c == CR then Go(p, HeaderAlmostDone) else if c == LF then Again(p, HeaderAlmostDone) else ValueChar(p, c)
  }

  function AroundValueStep(p: Parser, at: Place, c: char): Effect {
    match at
    case ValueDiscardWs =>
      if c == ' ' || c == '\t' then Stay(p)
      else if c == CR then Go(p, ValueDiscardWsAlmostDone)
      else if c == LF then Go(p, ValueDiscardLws)
      else ValueFirst(p, c)
    case ValueStart => ValueFirst(p, c)
    case HeaderAlmostDone => Expect(p, c, LF, ValueLws)
    case ValueLws =>
      if c == ' ' || c == '\t' then Again(p, ValueStart)
      else Again(p.(flags := EndValue(p.headerState, p.flags)), FieldStart)
    case ValueDiscardWsAlmostDone => Expect(p, c, LF, ValueDiscardLws)
    case _ =>
      if c == ' ' || c == '\t' then Go(p, ValueDiscardWs)
      else
        Effect(p.(flags := EndValue(p.headerState, p.flags), state := At(FieldStart)), [Data(OnHeaderValue, "")], true,
          false)
  }

  // ----- the end of the headers, and the body -----

  function Complete(p: Parser): Effect { Effect(p.(state := p.NewMessage()), [MessageComplete], false, false) }

  function HeadersEndStep(p: Parser, at: Place, c: char): Effect {
    if c != LF then Error(STRICT)
    else if at == HeadersAlmostDone then
      if p.flags.trailing then Complete(p)
      else Again(p.(upgrade := (p.flags.upgrade && p.flags.connectionUpgrade) || p.verb == CONNECT), HeadersDone)
    else if p.upgrade then Effect(p.(state := p.NewMessage()), [MessageComplete], false, true)
    else if p.flags.chunked then To(p, AtChunk(SizeStart))
    else if p.contentLength == 0 then Complete(p)
    else if p.contentLength != ULLONG_MAX then To(p, InBody)
    else if p.kind == Request || !p.NeedsEof() then Complete(p)
    else To(p, InBodyToEof)
  }

  function ExpectChunk(p: Parser, c: char, want: char, s: ChunkPlace): Effect {
    if c == want then To(p, AtChunk(s)) else Error(STRICT)
  }

  function ChunkStep(p: Parser, at: ChunkPlace, c: char): Effect {
    match at
    case SizeStart =>
      if Unhex(c) == -1 then Error(INVALID_CHUNK_SIZE) else To(p.(contentLength := Unhex(c)), AtChunk(Size))
    case Size =>
      if c == CR then To(p, AtChunk(SizeAlmostDone))
      else if Unhex(c) == -1 then
        (if c == ';' || c == ' ' then To(p, AtChunk(Parameters)) else Error(INVALID_CHUNK_SIZE))
      else if (ULLONG_MAX - 16) / 16 < p.contentLength then Error(INVALID_CONTENT_LENGTH)
      else Stay(p.(contentLength := 16 * p.contentLength + Unhex(c)))
    case Parameters => if c == CR then To(p, AtChunk(SizeAlmostDone)) else Stay(p)
    case SizeAlmostDone =>
      if c != LF then Error(STRICT)
      else if p.contentLength == 0 then Go(p.(flags := p.flags.(trailing := true)), FieldStart)
      else To(p, InChunk)
    case DataAlmostDone => ExpectChunk(p, c, CR, DataDone)
    case DataDone => ExpectChunk(p, c, LF, SizeStart)
  }

  function Less(p: Parser): Parser { p.(contentLength := if p.contentLength > 0 then p.contentLength - 1 else 0) }

  function InChunkStep(p: Parser, c: char): Effect {
    Take(if Less(p).contentLength == 0 then Less(p).(state := AtChunk(DataAlmostDone)) else Less(p), OnBody, c)
  }

  function InBodyStep(p: Parser, c: char): Effect {
    if Less(p).contentLength == 0 then Effect(Less(p).(state := At(MessageDone)), [Data(OnBody, [c])], true, false)
    else Take(Less(p), OnBody, c)
  }

  function PlaceStep(p: Parser, at: Place, c: char): Effect {
    if StartPlace(at) then StartStep(p, at, c)
    else if ResponsePlace(at) then ResponseStep(p, at, c)
    else if at.FieldStart? then FieldStartStep(p, c)
    else if ValuePlace(at) then AroundValueStep(p, at, c)
    else if at.HeadersAlmostDone? || at.HeadersDone? then HeadersEndStep(p, at, c)
    else if at.MessageDone? then Complete(p)
    else RequestStep(p, at, c)
  }

  predicate StartPlace(s: Place) { s.Dead? || s.StartReqOrRes? || s.ResOrRespH? || s.StartRes? || s.StartReq? }

  /** Inside of a message. */
  predicate InMessage(s: State) {
    s != At(Dead) && s != At(StartReqOrRes) && s != At(StartRes) && s != At(StartReq)
  }

  predicate ResponsePlace(s: Place) {
    s.ResH? || s.ResHT? || s.ResHTT? || s.ResHTTP? || s.ResFirstMajor? || s.ResMajor? || s.ResFirstMinor? ||
    s.ResMinor? ||
    s.ResFirstStatusCode? || s.ResStatusCode? || s.ResStatusStart? || s.ResLineAlmostDone?
  }

  predicate ValuePlace(s: Place) {
    s.ValueDiscardWs? || s.ValueDiscardWsAlmostDone? || s.ValueDiscardLws? || s.ValueStart? || s.ValueLws? ||
    s.HeaderAlmostDone?
  }

  /** One turn of the parser's switch. */
  function Step(p: Parser, c: char): Effect {
    match p.state
    case At(place) => PlaceStep(p, place, c)
    case InUrl(part) => UrlStep(p, part, c)
    case InStatus => StatusStep(p, c)
    case InField => FieldStep(p, c)
    case InValue => ValueStep(p, c)
    case AtChunk(chunk) => ChunkStep(p, chunk, c)
    case InChunk => InChunkStep(p, c)
    case InBody => InBodyStep(p, c)
    case InBodyToEof => Take(p, OnBody, c)
  }

  // ----- what every turn keeps -----

  predicate NameState(h: HeaderState) {
    h.General? || h.C? || h.CO? || h.CON? || h.MatchingConnection? || h.MatchingProxyConnection? ||
    h.MatchingContentLength? || h.MatchingTransferEncoding? || h.MatchingUpgrade? || h.Connection? ||
    h.ContentLength? || h.TransferEncoding? || h.Upgrade?
  }

  predicate Counted(p: Parser) { 0 < p.contentLength < ULLONG_MAX }

  /** What the assertions of http_parser_execute need, apart from the one about nread. */
  predicate Valid(p: Parser) {
    p.contentLength <= ULLONG_MAX &&
    match p.state
    case At(place) => place.ReqMethod? ==> p.index <= |Name(p.verb)|
    case InUrl(_) => true
    case InStatus => true
    case InField => NameState(p.headerState)
    case InValue =>
      !p.headerState.Connection? && !p.headerState.TransferEncoding? &&
      (p.headerState.ContentLength? ==> p.contentLength < ULLONG_MAX)
    case AtChunk(chunk) =>
      p.flags.chunked && (!chunk.SizeStart? ==> p.contentLength < ULLONG_MAX) &&
      (chunk.DataAlmostDone? ==> p.contentLength == 0)
    case InChunk => p.flags.chunked && Counted(p)
    case InBody => Counted(p)
    case InBodyToEof => true
  }

  datatype MaybeField = None | Some(field: Field)

  /** The field whose bytes go on in a state. */
  function FieldOf(s: State): MaybeField {
    match s
    case InUrl(_) => Some(OnUrl)
    case InStatus => Some(OnStatus)
    case InField => Some(OnHeaderField)
    case InValue => Some(OnHeaderValue)
    case _ => None
  }

  predicate BodyState(s: State) { s.InBody? || s.InBodyToEof? || s.InChunk? }

  /** How often a byte can be looked at again. */
  function Rank(s: State): nat {
    match s
    case At(place) =>
      if place.ValueLws? || place.ValueDiscardLws? then 3
      else if place.FieldStart? then 2
      else if place.HeadersAlmostDone? || place.StartReqOrRes? then 1
      else 0
    case InValue => 1
    case InBody => 1
    case _ => 0
  }

  predicate Quiet(es: seq<Event>) {
    es == [] || es == [MessageBegin] || es == [MessageComplete] || es == [Data(OnHeaderValue, "")]
  }

  /** The callbacks of a turn: the byte for the field that goes on or starts, or, outside
      of fields, at most a notification or an empty header value. */
  predicate Orderly(s: State, c: char, e: Effect)
    requires e.Effect?
  {
    var g := FieldOf(e.p.state);
    (e.again ==> Rank(e.p.state) < Rank(s) && !e.stop) && (e.stop ==> s == At(HeadersDone)) &&
    if BodyState(s) then e.events == [Data(OnBody, [c])] && g == None
    else if g.Some? then (FieldOf(s) == g || FieldOf(s) == None) && e.events == [Data(g.field, [c])] && !e.again
    else if FieldOf(s).Some? then e.events == []
    else Quiet(e.events)
  }

  predicate Sound(s: State, c: char, e: Effect) {
    if e.Error? then e.errno != OK else Valid(e.p) && Orderly(s, c, e)
  }

  lemma {:induction false} StartSound(p: Parser, at: Place, c: char)
    requires Valid(p) && p.state == At(at) && StartPlace(at)
    ensures Sound(p.state, c, StartStep(p, at, c))
  {
    hide Name, FirstMethod;
  }

  lemma {:induction false} MethodSound(p: Parser, c: char)
    requires Valid(p) && p.state == At(ReqMethod)
    ensures Sound(p.state, c, MethodStep(p, c))
  {
  }

  lemma {:induction false} RequestSound(p: Parser, at: Place, c: char)
    requires Valid(p) && p.state == At(at)
    requires !StartPlace(at) && !ResponsePlace(at) && !ValuePlace(at) && !at.HeadersAlmostDone? && !at.HeadersDone?
    ensures Sound(p.state, c, RequestStep(p, at, c))
  {
    if at.ReqMethod? { MethodSound(p, c); }
  }

  lemma {:induction false} ResponseSound(p: Parser, at: Place, c: char)
    requires Valid(p) && p.state == At(at) && ResponsePlace(at)
    ensures Sound(p.state, c, ResponseStep(p, at, c))
  {
  }

  lemma {:induction false} UrlSound(p: Parser, part: Part, c: char)
    requires Valid(p) && p.state == InUrl(part)
    ensures Sound(p.state, c, UrlStep(p, part, c))
  {
  }

  lemma {:induction false} FieldSound(p: Parser, c: char)
    requires Valid(p) && p.state == InField
    ensures Sound(p.state, c, FieldStep(p, c))
  {
  }

  lemma {:induction false} ValueStateIs(h: HeaderState, i: nat, c: char)
    requires !h.Connection? && !h.TransferEncoding? && !h.ContentLength?
    ensures var g := ValueState(h, i, c); !g.Connection? && !g.TransferEncoding? && !g.ContentLength?
  {
  }

  lemma {:induction false} ValueCharSound(p: Parser, c: char)
    requires Valid(p) && p.state == InValue
    ensures Sound(p.state, c, ValueChar(p, c))
  {
    if !p.headerState.ContentLength? { ValueStateIs(p.headerState, p.index + 1, c); }
  }

  lemma {:induction false} ValueSound(p: Parser, c: char)
    requires Valid(p) && p.state == InValue
    ensures Sound(p.state, c, ValueStep(p, c))
  {
    ValueCharSound(p, c);
  }

  lemma {:induction false} ValueFirstSound(p: Parser, at: Place, c: char)
    requires Valid(p) && p.state == At(at) && ValuePlace(at)
    ensures Sound(p.state, c, ValueFirst(p, c))
  {
  }

  lemma {:induction false} AroundValueSound(p: Parser, at: Place, c: char)
    requires Valid(p) && p.state == At(at) && ValuePlace(at)
    ensures Sound(p.state, c, AroundValueStep(p, at, c))
  {
    ValueFirstSound(p, at, c);
    hide ValueFirst;
  }

  lemma {:induction false} HeadersEndSound(p: Parser, at: Place, c: char)
    requires Valid(p) && p.state == At(at) && (at.HeadersAlmostDone? || at.HeadersDone?)
    ensures Sound(p.state, c, HeadersEndStep(p, at, c))
  {
  }

  lemma {:induction false} ChunkSound(p: Parser, at: ChunkPlace, c: char)
    requires Valid(p) && p.state == AtChunk(at)
    ensures Sound(p.state, c, ChunkStep(p, at, c))
  {
  }

  lemma {:induction false} PlaceSound(p: Parser, at: Place, c: char)
    requires Valid(p) && p.state == At(at)
    ensures Sound(p.state, c, PlaceStep(p, at, c))
  {
    if StartPlace(at) {
      StartSound(p, at, c);
    } else if ResponsePlace(at) {
      ResponseSound(p, at, c);
    } else if ValuePlace(at) {
      AroundValueSound(p, at, c);
    } else if at.HeadersAlmostDone? || at.HeadersDone? {
      HeadersEndSound(p, at, c);
    } else if !at.FieldStart? && !at.MessageDone? {
      RequestSound(p, at, c);
    }
  }

  /** No assertion about the parser's fields fails, and callbacks come in order. */
  lemma {:induction false} StepSound(p: Parser, c: char)
    requires Valid(p)
    ensures Sound(p.state, c, Step(p, c))
  {
    match p.state {
      case At(place) => PlaceSound(p, place, c);
      case InUrl(part) => UrlSound(p, part, c);
      case InStatus =>
      case InField => FieldSound(p, c);
      case InValue => ValueSound(p, c);
      case AtChunk(chunk) => ChunkSound(p, chunk, c);
      case _ =>
    }
  }
}
