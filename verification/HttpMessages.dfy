/** Whole messages: a header that says how the body is framed, and the body. */
module HttpMessages {
  import opened HttpChars
  import opened HttpSteps
  import opened HttpRuns
  import opened HttpBodies
  import opened HttpHeaders
  import opened HttpParser

  const CRLF: string := "\r\n"

  // ----- values -----

  /** A decimal number, after `v` for the digits before it. */
  function DecFrom(v: nat, digits: string): nat
    requires AllNum(digits)
    decreases |digits|
  {
    if digits == "" then v else DecFrom(Extend(v, digits[0]), digits[1..])
  }

  lemma {:induction false} DecGrows(v: nat, digits: string)
    requires AllNum(digits)
    ensures DecFrom(v, digits) >= v
    decreases |digits|
  {
    if digits != "" { DecGrows(Extend(v, digits[0]), digits[1..]); }
  }

  lemma {:induction false} LengthDigit(p: Parser, c: char)
    requires Valid(p) && p.state == InValue && p.headerState == ContentLength && IsNum(c)
    ensures var v := Extend(p.contentLength, c);
      Step(p, c) == if v <= ULLONG_MAX - 6 then Effect(p.(contentLength := v), [Data(OnHeaderValue, [c])], false, false)
                    else Error(INVALID_CONTENT_LENGTH)
  {
  }

  lemma {:induction false} ValueByte(p: Parser, c: char)
    requires Valid(p) && Step(p, c).Effect? && !Step(p, c).again && !Step(p, c).stop
    requires Step(p, c).events == [Data(OnHeaderValue, [c])]
    ensures Leads(p, [c], "", [], Step(p, c).p) && Valid(Step(p, c).p)
  {
    hide Run, Step;
    StepSound(p, c);
    OneByte(p, c);
    ReadOne(Data(OnHeaderValue, [c]));
  }

  lemma {:induction false} LengthDigits(p: Parser, digits: string)
    requires Valid(p) && p.state == InValue && p.headerState == ContentLength && AllNum(digits) && digits != ""
    ensures if DecFrom(p.contentLength, digits) <= ULLONG_MAX - 6 then
        Leads(p, digits, "", [], p.(contentLength := DecFrom(p.contentLength, digits)))
      else Run(p, digits).ending == Refused(INVALID_CONTENT_LENGTH)
    decreases |digits|
  {
    hide Run, Step;
    var c, rest := digits[0], digits[1..];
    assert digits == [c] + rest;
    var v := Extend(p.contentLength, c);
    LengthDigit(p, c);
    DecGrows(v, rest);
    Turn(p, digits);
    if v <= ULLONG_MAX - 6 {
      var q := p.(contentLength := v);
      ValueByte(p, c);
      if rest == "" {
        assert digits == [c];
      } else {
        LengthDigits(q, rest);
        if DecFrom(v, rest) <= ULLONG_MAX - 6 {
          LeadsSilently(p, [c], "", [], q, rest, q.(contentLength := DecFrom(v, rest)));
        }
      }
    }
  }

  /** A Content-Length is read as its decimal value, or refused: exactly if it is too
      large, so that it neither wraps around nor is the mark for a missing length. */
  lemma {:induction false} LengthValue(p: Parser, digits: string)
    requires Valid(p) && p.state == At(ValueDiscardWs) && p.headerState == ContentLength && AllNum(digits) &&
      digits != ""
    ensures if DecFrom(0, digits) <= ULLONG_MAX - 6 then
        Leads(p, digits, "", [], p.(state := InValue, index := 0, contentLength := DecFrom(0, digits)))
      else Run(p, digits).ending == Refused(INVALID_CONTENT_LENGTH)
  {
    hide Run, Leads;
    var c, rest := digits[0], digits[1..];
    var q := p.(state := InValue, index := 0, contentLength := Digit(c));
    assert digits == [c] + rest && Extend(0, c) == Digit(c);
    FirstDigit(p, c);
    assert DecFrom(0, digits) == DecFrom(Digit(c), rest);
    if rest == "" {
      assert digits == [c];
    } else {
      LengthDigits(q, rest);
      RefusedLater(p, [c], "", [], q, rest);
      if DecFrom(0, digits) <= ULLONG_MAX - 6 {
        LeadsSilently(p, [c], "", [], q, rest, q.(contentLength := DecFrom(0, digits)));
      }
    }
  }

  lemma {:induction false} FirstDigit(p: Parser, c: char)
    requires Valid(p) && p.state == At(ValueDiscardWs) && p.headerState == ContentLength && IsNum(c)
    ensures var q := p.(state := InValue, index := 0, contentLength := Digit(c));
      0 <= Digit(c) < 10 && Valid(q) && Leads(p, [c], "", [], q)
  {
    hide Run;
    ValueByte(p, c);
  }

  lemma {:induction false} RefusedLater(p: Parser, a: string, body: string, ns: seq<Event>, q: Parser, b: string)
    requires Leads(p, a, body, ns, q) && Valid(q)
    ensures Run(p, a + b).ending == Run(q, b).ending
  {
    hide Run;
    RunAppend(p, a, b);
  }

  /** A value of a field that does not give the length; it may be empty. */
  predicate IsValue(value: string) { InLine(value) && (value != "" ==> value[0] != ' ' && value[0] != '\t') }

  lemma {:induction false} ReadsValue(p: Parser, value: string) returns (q: Parser)
    requires Valid(p) && p.state == At(ValueDiscardWs) && !p.headerState.ContentLength?
    requires IsValue(value) && value != ""
    ensures Leads(p, value, "", [], q) && Valid(q) && q.state == InValue
    ensures q.flags.trailing == p.flags.trailing
  {
    hide Run, Leads, Step, Valid;
    var c := value[0];
    FirstOfValue(p, c);
    ValueByte(p, c);
    var r := Step(p, c).p;
    q := RestOfValue(r, value[1..]);
    LeadsSilently(p, [c], "", [], r, value[1..], q);
    assert value == [c] + value[1..];
  }

  lemma {:induction false} FirstOfValue(p: Parser, c: char)
    requires Valid(p) && p.state == At(ValueDiscardWs) && !p.headerState.ContentLength?
    requires c != CR && c != LF && c != ' ' && c != '\t'
    ensures var e := Step(p, c);
      e.Effect? && !e.again && !e.stop && e.events == [Data(OnHeaderValue, [c])] && e.p.state == InValue &&
      !e.p.headerState.ContentLength? && e.p.flags.trailing == p.flags.trailing
  {
  }

  lemma {:induction false} NextOfValue(p: Parser, c: char)
    requires Valid(p) && p.state == InValue && !p.headerState.ContentLength? && c != CR && c != LF
    ensures var e := Step(p, c);
      e.Effect? && !e.again && !e.stop && e.events == [Data(OnHeaderValue, [c])] && e.p.state == InValue &&
      !e.p.headerState.ContentLength? && e.p.flags.trailing == p.flags.trailing
  {
    hide ValueState, ValueIndex;
    ValueStateIs(p.headerState, p.index + 1, c);
  }

  lemma {:induction false} RestOfValue(p: Parser, value: string) returns (q: Parser)
    requires Valid(p) && p.state == InValue && !p.headerState.ContentLength? && InLine(value)
    ensures Leads(p, value, "", [], q) && Valid(q) && q.state == InValue
    ensures q.flags.trailing == p.flags.trailing
    decreases |value|
  {
    hide Run, Leads, Step, Valid;
    if value == "" {
      Nowhere(p);
      q := p;
    } else {
      var c := value[0];
      NextOfValue(p, c);
      ValueByte(p, c);
      var r := Step(p, c).p;
      q := RestOfValue(r, value[1..]);
      LeadsSilently(p, [c], "", [], r, value[1..], q);
      assert value == [c] + value[1..];
    }
  }

  /** What decides about the body is the same. */
  predicate SameFraming(p: Parser, q: Parser) {
    q.contentLength == p.contentLength && q.verb == p.verb && q.flags.chunked == p.flags.chunked &&
    q.flags.trailing == p.flags.trailing && q.flags.upgrade == p.flags.upgrade
  }

  /** In a value that does not decide about the body. */
  predicate Aside(h: HeaderState) {
    !h.ContentLength? && !h.TransferEncoding? && !h.Upgrade? && !h.MatchingChunked? && !h.Chunked?
  }

  /** The value of a field that does not decide about the body. */
  lemma {:induction false} ReadsPlainValue(p: Parser, value: string) returns (q: Parser)
    requires Valid(p) && p.state == At(ValueDiscardWs) && Aside(p.headerState) && IsValue(value) && value != ""
    ensures Leads(p, value, "", [], q) && Valid(q) && q.state == InValue && Aside(q.headerState) && SameFraming(p, q)
  {
    hide Run, Leads, Step, Valid;
    var c := value[0];
    FirstOfPlainValue(p, c);
    ValueByte(p, c);
    var r := Step(p, c).p;
    q := PlainRest(r, value[1..]);
    LeadsSilently(p, [c], "", [], r, value[1..], q);
    assert value == [c] + value[1..];
  }

  lemma {:induction false} FirstOfPlainValue(p: Parser, c: char)
    requires Valid(p) && p.state == At(ValueDiscardWs) && Aside(p.headerState)
    requires c != CR && c != LF && c != ' ' && c != '\t'
    ensures var e := Step(p, c);
      e.Effect? && !e.again && !e.stop && e.events == [Data(OnHeaderValue, [c])] && e.p.state == InValue &&
      Aside(e.p.headerState) && SameFraming(p, e.p)
  {
  }

  lemma {:induction false} NextOfPlainValue(p: Parser, c: char)
    requires Valid(p) && p.state == InValue && Aside(p.headerState) && c != CR && c != LF
    ensures var e := Step(p, c);
      e.Effect? && !e.again && !e.stop && e.events == [Data(OnHeaderValue, [c])] && e.p.state == InValue &&
      Aside(e.p.headerState) && SameFraming(p, e.p)
  {
    StaysAside(p.headerState, p.index + 1, c);
    hide ValueState, ValueIndex;
  }

  lemma {:induction false} StaysAside(h: HeaderState, i: nat, c: char)
    requires Aside(h)
    ensures Aside(ValueState(h, i, c))
  {
  }

  lemma {:induction false} PlainRest(p: Parser, value: string) returns (q: Parser)
    requires Valid(p) && p.state == InValue && Aside(p.headerState) && InLine(value)
    ensures Leads(p, value, "", [], q) && Valid(q) && q.state == InValue && Aside(q.headerState) && SameFraming(p, q)
    decreases |value|
  {
    hide Run, Leads, Valid, Step;
    if value == "" {
      Nowhere(p);
      q := p;
    } else {
      var c := value[0];
      NextOfPlainValue(p, c);
      ValueByte(p, c);
      var r := Step(p, c).p;
      q := PlainRest(r, value[1..]);
      LeadsSilently(p, [c], "", [], r, value[1..], q);
      assert value == [c] + value[1..];
    }
  }

  // ----- lines -----

  /** The parser expects a header line, or the end of the headers. */
  predicate AtLine(p: Parser) {
    Valid(p) && (p.state == At(FieldStart) || p.state == At(ValueLws) || p.state == At(ValueDiscardLws))
  }

  /** The parser when a line starts: the value of the line before is complete. */
  function LineStart(p: Parser): Parser
    requires AtLine(p)
  {
    if p.state == At(FieldStart) then p else p.(flags := EndValue(p.headerState, p.flags), state := At(FieldStart))
  }

  lemma {:induction false} StepStarts(p: Parser, c: char) returns (es: seq<Event>)
    requires AtLine(p) && p.state != At(FieldStart) && c != ' ' && c != '\t'
    ensures Step(p, c) == Effect(LineStart(p), es, true, false) && (es == [] || es == [Data(OnHeaderValue, "")])
  {
    es := if p.state == At(ValueLws) then [] else [Data(OnHeaderValue, "")];
  }

  lemma {:induction false} StartsLine(p: Parser, data: string, body: string, ns: seq<Event>, q: Parser)
    requires AtLine(p) && data != "" && data[0] != ' ' && data[0] != '\t'
    requires Leads(LineStart(p), data, body, ns, q)
    ensures Leads(p, data, body, ns, q)
  {
    if p.state != At(FieldStart) {
      var es := StepStarts(p, data[0]);
      hide Run, Step, LineStart;
      Turn(p, data);
      ReadOne(Data(OnHeaderValue, ""));
      ReadAppend(es, Run(LineStart(p), data).events);
      assert "" + body == body && [] + ns == ns;
    }
  }

  lemma {:induction false} LineEnds(p: Parser)
    requires Valid(p) && p.state == InValue
    ensures Leads(p, CRLF, "", [], p.(state := At(ValueLws))) && AtLine(p.(state := At(ValueLws)))
  {
    hide Run;
    var q := p.(state := At(HeaderAlmostDone));
    OneByte(p, CR);
    OneByte(q, LF);
    LeadsSilently(p, [CR], "", [], q, [LF], q.(state := At(ValueLws)));
    assert [CR] + [LF] == CRLF;
  }

  /** The end of a line without a value. */
  lemma {:induction false} EmptyValueEnds(p: Parser)
    requires Valid(p) && p.state == At(ValueDiscardWs)
    ensures Leads(p, CRLF, "", [], p.(state := At(ValueDiscardLws))) && AtLine(p.(state := At(ValueDiscardLws)))
  {
    hide Run;
    var q := p.(state := At(ValueDiscardWsAlmostDone));
    OneByte(p, CR);
    OneByte(q, LF);
    LeadsSilently(p, [CR], "", [], q, [LF], q.(state := At(ValueDiscardLws)));
    assert [CR] + [LF] == CRLF;
  }

  /** A header line of any field but Content-Length. */
  datatype Line = Line(name: string, padding: string, value: string)
  {
    predicate WellFormed() {
      IsName(name) && name != "" && LowerCase(name) != "content-length" && IsPadding(padding) && IsValue(value)
    }

    function Text(): string { name + ":" + padding + value + CRLF }
  }

  lemma {:induction false} LineLeads(p: Parser, l: Line) returns (q: Parser)
    requires AtLine(p) && l.WellFormed()
    ensures Leads(p, l.Text(), "", [], q) && AtLine(q) && q.flags.trailing == p.flags.trailing
  {
    hide Run, Leads, Valid;
    var p' := LineStart(p);
    StartValid(p);
    var r := KnowsName(p', l.name, l.padding);
    var s := r;
    if l.value == "" {
      EmptyValueEnds(r);
      q := r.(state := At(ValueDiscardLws));
      assert l.name + ":" + l.padding + l.value == l.name + ":" + l.padding;
    } else {
      s := ReadsValue(r, l.value);
      LineEnds(s);
      q := s.(state := At(ValueLws));
      LeadsSilently(p', l.name + ":" + l.padding, "", [], r, l.value, s);
    }
    LeadsSilently(p', l.name + ":" + l.padding + l.value, "", [], s, CRLF, q);
    StartsLine(p, l.Text(), "", [], q);
  }

  lemma {:induction false} StartValid(p: Parser)
    requires AtLine(p)
    ensures Valid(LineStart(p)) && LineStart(p).state == At(FieldStart) &&
      LineStart(p).flags.trailing == p.flags.trailing
  {
  }

  function LineTexts(lines: seq<Line>): string { if lines == [] then "" else lines[0].Text() + LineTexts(lines[1..]) }

  predicate AllLines(lines: seq<Line>) { forall i :: 0 <= i < |lines| ==> lines[i].WellFormed() }

  lemma {:induction false} LinesLead(p: Parser, lines: seq<Line>) returns (q: Parser)
    requires AtLine(p) && AllLines(lines)
    ensures Leads(p, LineTexts(lines), "", [], q) && AtLine(q) && q.flags.trailing == p.flags.trailing
    decreases |lines|
  {
    hide Run, Leads;
    if lines == [] {
      Nowhere(p);
      q := p;
    } else {
      var r := LineLeads(p, lines[0]);
      q := LinesLead(r, lines[1..]);
      LeadsSilently(p, lines[0].Text(), "", [], r, LineTexts(lines[1..]), q);
    }
  }

  /** The names that decide about the body. */
  predicate Acted(name: string)
    requires IsName(name)
  {
    LowerCase(name) in ["content-length", "transfer-encoding", "upgrade"]
  }

  predicate AllPlain(lines: seq<Line>) {
    forall i :: 0 <= i < |lines| ==> lines[i].WellFormed() && !Acted(lines[i].name)
  }

  lemma {:induction false} PlainFieldLeads(p: Parser, l: Line) returns (q: Parser)
    requires Valid(p) && p.state == At(FieldStart) && l.WellFormed() && !Acted(l.name)
    ensures Leads(p, l.name + ":" + l.padding + l.value, "", [], q) && Valid(q) && SameFraming(p, q)
    ensures q.state == (if l.value == "" then At(ValueDiscardWs) else InValue) && Aside(q.headerState)
  {
    hide Run, Leads, Valid;
    var r := KnowsName(p, l.name, l.padding);
    q := r;
    if l.value == "" {
      assert l.name + ":" + l.padding + l.value == l.name + ":" + l.padding;
    } else {
      q := ReadsPlainValue(r, l.value);
      LeadsSilently(p, l.name + ":" + l.padding, "", [], r, l.value, q);
    }
  }

  lemma {:induction false} PlainFieldEnds(p: Parser) returns (q: Parser)
    requires Valid(p) && (p.state == At(ValueDiscardWs) || p.state == InValue) && Aside(p.headerState)
    ensures Leads(p, CRLF, "", [], q) && AtLine(q) && SameFraming(p, LineStart(q))
  {
    hide Run, Leads;
    if p.state == InValue {
      LineEnds(p);
      q := p.(state := At(ValueLws));
    } else {
      EmptyValueEnds(p);
      q := p.(state := At(ValueDiscardLws));
    }
  }

  /** A line of any other field leaves open what follows the header. */
  lemma {:induction false} PlainLineLeads(p: Parser, l: Line) returns (q: Parser)
    requires AtLine(p) && l.WellFormed() && !Acted(l.name)
    ensures Leads(p, l.Text(), "", [], q) && AtLine(q) && SameFraming(LineStart(p), LineStart(q))
  {
    hide Run, Leads, Valid, LowerCase, IsPadding, IsValue;
    var p' := LineStart(p);
    StartValid(p);
    var s := PlainFieldLeads(p', l);
    q := PlainFieldEnds(s);
    hide AtLine, LineStart;
    LeadsSilently(p', l.name + ":" + l.padding + l.value, "", [], s, CRLF, q);
    StartsLine(p, l.Text(), "", [], q);
  }

  lemma {:induction false} PlainLinesLead(p: Parser, lines: seq<Line>) returns (q: Parser)
    requires AtLine(p) && AllPlain(lines)
    ensures Leads(p, LineTexts(lines), "", [], q) && AtLine(q) && SameFraming(LineStart(p), LineStart(q))
    decreases |lines|
  {
    hide Run, Leads;
    if lines == [] {
      Nowhere(p);
      q := p;
    } else {
      var r := PlainLineLeads(p, lines[0]);
      q := PlainLinesLead(r, lines[1..]);
      LeadsSilently(p, lines[0].Text(), "", [], r, LineTexts(lines[1..]), q);
    }
  }

  // ----- chunked messages -----

  /** The carriage return of an empty line. */
  lemma {:induction false} EmptyLineStarts(p: Parser)
    requires Valid(p) && p.state == At(FieldStart)
    ensures Leads(p, [CR], "", [], p.(state := At(HeadersAlmostDone)))
  {
    hide Run;
    OneByte(p, CR);
  }

  lemma {:induction false} TrailerDone(p: Parser)
    requires Valid(p) && p.state == At(HeadersAlmostDone) && p.flags.trailing
    ensures Leads(p, [LF], "", [MessageComplete], p.(state := p.NewMessage()))
  {
    hide Run;
    OneByte(p, LF);
    ReadOne(MessageComplete);
  }

  /** The empty line behind the last chunk and its trailer ends the message. */
  lemma {:induction false} TrailerEnds(p: Parser) returns (q: Parser)
    requires AtLine(p) && p.flags.trailing
    ensures Leads(p, CRLF, "", [MessageComplete], q) && q.state == q.NewMessage()
  {
    hide Run, Leads;
    StartValid(p);
    var s := LineStart(p);
    var r := s.(state := At(HeadersAlmostDone));
    q := r.(state := r.NewMessage());
    EmptyLineStarts(s);
    TrailerDone(r);
    LeadsAfter(s, [CR], r, [LF], "", [MessageComplete], q);
    assert [CR] + [LF] == CRLF;
    StartsLine(p, CRLF, "", [MessageComplete], q);
  }

  lemma {:induction false} LastChunk(p: Parser, size: string, extension: string)
    requires Valid(p) && p.state == AtChunk(SizeStart) && IsSize(size, 0) && IsExtension(extension)
    ensures var q := p.(contentLength := 0, flags := p.flags.(trailing := true), state := At(FieldStart));
      AtLine(q) && Leads(p, size + extension + CRLF, "", [], q)
  {
    hide Run;
    var r := p.(contentLength := 0, state := AtChunk(SizeAlmostDone));
    var q := p.(contentLength := 0, flags := p.flags.(trailing := true), state := At(FieldStart));
    SizeLine(p, size, extension, 0);
    OneByte(r, LF);
    LeadsSilently(p, size + extension + [CR], "", [], r, [LF], q);
    assert size + extension + [CR] + [LF] == size + extension + CRLF;
  }

  /** A chunked body as in section 3.6.1 of RFC 2616: chunks, a last one of size zero, and
      a trailer. */
  datatype Body = Body(chunks: seq<Chunk>, last: string, extension: string, trailer: seq<Line>)
  {
    predicate WellFormed() {
      AllWellFormed(chunks) && IsSize(last, 0) && IsExtension(extension) && AllLines(trailer)
    }

    function Text(): string { Texts(chunks) + (last + extension + CRLF) + LineTexts(trailer) + CRLF }
  }

  /** All of the data is delivered, in order and nothing else, and then the message is
      complete, once. */
  lemma {:induction false} ChunkedBody(p: Parser, b: Body) returns (q: Parser)
    requires Valid(p) && p.state == AtChunk(SizeStart) && b.WellFormed()
    ensures Leads(p, b.Text(), AllData(b.chunks), [MessageComplete], q) && q.state == q.NewMessage()
  {
    hide Run, Leads;
    var data, head := AllData(b.chunks), b.last + b.extension + CRLF;
    ChunksLead(p, b.chunks);
    var n: nat :| n <= ULLONG_MAX && Leads(p, Texts(b.chunks), data, [], p.(contentLength := n));
    var r := p.(contentLength := n);
    LastChunk(r, b.last, b.extension);
    var s := r.(contentLength := 0, flags := r.flags.(trailing := true), state := At(FieldStart));
    var t := LinesLead(s, b.trailer);
    q := TrailerEnds(t);
    LeadsSilently(p, Texts(b.chunks), data, [], r, head, s);
    LeadsSilently(p, Texts(b.chunks) + head, data, [], s, LineTexts(b.trailer), t);
    LeadsOn(p, Texts(b.chunks) + head + LineTexts(b.trailer), data, [], t, CRLF, "", [MessageComplete], q);
    assert data + "" == data && [] + [MessageComplete] == [MessageComplete];
  }

  /** A byte from 0x80 on in place of the last chunk's size ends the message as 0 does. */
  lemma {:induction false} HighByteEnds(p: Parser, c: char) returns (q: Parser)
    requires Valid(p) && p.state == AtChunk(SizeStart) && c >= '\U{80}'
    ensures Leads(p, [c] + CRLF + CRLF, "", [MessageComplete], q) && q.state == q.NewMessage()
  {
    hide Run;
    var zero := Body([], "0", "", []);
    q := ChunkedBody(p, zero);
    SizeFirstByte(p, c);
    var s, t := [c] + CRLF + CRLF, ['0'] + CRLF + CRLF;
    assert zero.Text() == t && s[1..] == t[1..];
    hide Step;
    StepSound(p, c);
    Turn(p, s);
    Turn(p, t);
  }

  // ----- from the header to the body -----

  /** In a header, with nothing read yet that decides about the body. */
  predicate AtHeader(p: Parser) { AtLine(p) && Undecided(LineStart(p)) }

  predicate Undecided(p: Parser) { !p.flags.chunked && !p.flags.trailing && !p.flags.upgrade && p.verb != CONNECT }

  lemma {:induction false} HeaderEnds(p: Parser, s: State)
    requires AtLine(p) && !p.flags.trailing && p.verb != CONNECT
    requires !(LineStart(p).flags.upgrade && LineStart(p).flags.connectionUpgrade)
    requires s == (if LineStart(p).flags.chunked then AtChunk(SizeStart) else InBody)
    requires LineStart(p).flags.chunked || Counted(p)
    ensures var q := LineStart(p).(upgrade := false, state := s);
      Leads(p, CRLF, "", [], q) && Valid(q)
  {
    hide Run, Leads;
    StartValid(p);
    var r := LineStart(p);
    EmptyLineStarts(r);
    var t := r.(state := At(HeadersAlmostDone));
    HeaderDone(t, s);
    LeadsSilently(r, [CR], "", [], t, [LF], t.(upgrade := false, state := s));
    assert [CR] + [LF] == CRLF;
    StartsLine(p, CRLF, "", [], t.(upgrade := false, state := s));
  }

  lemma {:induction false} HeaderDone(p: Parser, s: State)
    requires Valid(p) && p.state == At(HeadersAlmostDone) && !p.flags.trailing && p.verb != CONNECT
    requires !(p.flags.upgrade && p.flags.connectionUpgrade)
    requires s == (if p.flags.chunked then AtChunk(SizeStart) else InBody) && (p.flags.chunked || Counted(p))
    ensures var q := p.(upgrade := false, state := s); Leads(p, [LF], "", [], q) && Valid(q)
  {
    hide Run;
    var q := p.(upgrade := false, state := At(HeadersDone));
    assert Step(p, LF) == Effect(q, [], true, false) && Step(q, LF) == Effect(q.(state := s), [], false, false);
    hide Step;
    OneByte(q, LF);
    OneByteAgain(p, LF, "", [], p.(upgrade := false, state := s));
  }

  /** A header in which one line decides about the body. */
  datatype Header = Header(before: seq<Line>, name: string, padding: string, value: string, after: seq<Line>)
  {
    predicate WellFormed() { AllPlain(before) && IsName(name) && name != "" && IsPadding(padding) && AllPlain(after) }

    function Text(): string { LineTexts(before) + (name + ":" + padding + value + CRLF) + LineTexts(after) + CRLF }
  }

  lemma {:induction false} StaysHeader(p: Parser, q: Parser)
    requires AtHeader(p) && AtLine(q) && SameFraming(LineStart(p), LineStart(q))
    ensures AtHeader(q) && q.contentLength == p.contentLength
  {
  }

  /** The line with the length. */
  lemma {:induction false} LengthLine(p: Parser, name: string, padding: string, digits: string, n: nat)
    returns (q: Parser)
    requires AtHeader(p) && IsName(name) && name != "" && IsPadding(padding) && LowerCase(name) == "content-length"
    requires AllNum(digits) && digits != "" && DecFrom(0, digits) == n <= ULLONG_MAX - 6
    ensures Leads(p, name + ":" + padding + digits + CRLF, "", [], q) && AtHeader(q) && q.contentLength == n
  {
    hide Run, Leads;
    StartValid(p);
    var r := KnowsName(LineStart(p), name, padding);
    LengthValue(r, digits);
    var s := r.(state := InValue, index := 0, contentLength := n);
    LeadsSilently(LineStart(p), name + ":" + padding, "", [], r, digits, s);
    LineEnds(s);
    q := s.(state := At(ValueLws));
    LeadsSilently(LineStart(p), name + ":" + padding + digits, "", [], s, CRLF, q);
    StartsLine(p, name + ":" + padding + digits + CRLF, "", [], q);
  }

  /** Up to the body of a message with a Content-Length; without a body it is complete. */
  lemma {:induction false} LengthHeader(p: Parser, h: Header, n: nat) returns (q: Parser)
    requires AtHeader(p) && h.WellFormed() && LowerCase(h.name) == "content-length"
    requires AllNum(h.value) && h.value != "" && DecFrom(0, h.value) == n <= ULLONG_MAX - 6
    ensures Leads(p, h.Text(), "", if n == 0 then [MessageComplete] else [], q)
    ensures if n == 0 then q.state == q.NewMessage() else Valid(q) && q.state == InBody && q.contentLength == n
  {
    hide Run, Leads, AtLine, LineStart;
    var line := h.name + ":" + h.padding + h.value + CRLF;
    var r := PlainLinesLead(p, h.before);
    StaysHeader(p, r);
    var s := LengthLine(r, h.name, h.padding, h.value, n);
    LeadsSilently(p, LineTexts(h.before), "", [], r, line, s);
    var t := PlainLinesLead(s, h.after);
    StaysHeader(s, t);
    LeadsSilently(p, LineTexts(h.before) + line, "", [], s, LineTexts(h.after), t);
    if n == 0 {
      q := NothingFollows(t);
      LeadsAfter(p, LineTexts(h.before) + line + LineTexts(h.after), t, CRLF, "", [MessageComplete], q);
    } else {
      q := LengthEnds(t);
      LeadsSilently(p, LineTexts(h.before) + line + LineTexts(h.after), "", [], t, CRLF, q);
    }
  }

  lemma {:induction false} NothingFollows(p: Parser) returns (q: Parser)
    requires AtHeader(p) && p.contentLength == 0
    ensures Leads(p, CRLF, "", [MessageComplete], q) && q.state == q.NewMessage()
  {
    hide Run, Leads;
    StartValid(p);
    var r := LineStart(p);
    EmptyLineStarts(r);
    var t := r.(state := At(HeadersAlmostDone));
    q := EmptyBody(t);
    LeadsAfter(r, [CR], t, [LF], "", [MessageComplete], q);
    assert [CR] + [LF] == CRLF;
    StartsLine(p, CRLF, "", [MessageComplete], q);
  }

  lemma {:induction false} EmptyBody(p: Parser) returns (q: Parser)
    requires Valid(p) && p.state == At(HeadersAlmostDone) && Undecided(p) && p.contentLength == 0
    ensures Leads(p, [LF], "", [MessageComplete], q) && q.state == q.NewMessage()
  {
    hide Run;
    var r := p.(upgrade := false, state := At(HeadersDone));
    q := r.(state := r.NewMessage());
    assert Step(p, LF) == Effect(r, [], true, false) && Step(r, LF) == Effect(q, [MessageComplete], false, false);
    hide Step;
    OneByte(r, LF);
    ReadOne(MessageComplete);
    OneByteAgain(p, LF, "", [MessageComplete], q);
  }

  lemma {:induction false} LengthEnds(p: Parser) returns (q: Parser)
    requires AtHeader(p) && Counted(p)
    ensures Leads(p, CRLF, "", [], q) && Valid(q) && q.state == InBody && q.contentLength == p.contentLength
  {
    hide Run, Leads;
    HeaderEnds(p, InBody);
    q := LineStart(p).(upgrade := false, state := InBody);
  }

  /** A message with a Content-Length delivers a body of that length. */
  lemma {:induction false} LengthMessage(p: Parser, h: Header, data: string) returns (q: Parser)
    requires AtHeader(p) && h.WellFormed() && LowerCase(h.name) == "content-length"
    requires AllNum(h.value) && h.value != "" && DecFrom(0, h.value) == |data| <= ULLONG_MAX - 6
    ensures Leads(p, h.Text() + data, data, [MessageComplete], q) && q.state == q.NewMessage()
  {
    hide Run, Leads;
    var u := LengthHeader(p, h, |data|);
    if data == "" {
      assert h.Text() + data == h.Text();
      return u;
    }
    IdentityBody(u, data);
    q := Ended(u);
    LeadsAfter(p, h.Text(), u, data, data, [MessageComplete], q);
  }

  // ----- Transfer-Encoding: chunked -----

  predicate SaysChunked(value: string) { |value| == 7 && forall i :: 0 <= i < 7 ==> Lower(value[i]) == "chunked"[i] }

  /** The parser has read `n` characters of "chunked". */
  predicate MatchedChunked(p: Parser, n: nat) {
    Valid(p) && p.state == InValue && Undecided(p) &&
    if n < 7 then p.headerState == MatchingChunked && p.index == n - 1 else p.headerState == Chunked
  }

  lemma {:induction false} ChunkedLetter(p: Parser, n: nat, c: char)
    requires 0 < n < 7 && MatchedChunked(p, n) && Lower(c) == "chunked"[n]
    ensures var e := Step(p, c);
      e.Effect? && !e.again && !e.stop && e.events == [Data(OnHeaderValue, [c])] && MatchedChunked(e.p, n + 1)
  {
    StepSound(p, c);
  }

  lemma {:induction false} ChunkedFirst(p: Parser, c: char)
    requires Valid(p) && p.state == At(ValueDiscardWs) && p.headerState == TransferEncoding && Undecided(p)
    requires Lower(c) == 'c'
    ensures var e := Step(p, c);
      e.Effect? && !e.again && !e.stop && e.events == [Data(OnHeaderValue, [c])] && MatchedChunked(e.p, 1)
  {
  }

  lemma {:induction false} ChunkedValue(p: Parser, value: string, n: nat) returns (q: Parser)
    requires Valid(p) && p.state == At(ValueDiscardWs) && p.headerState == TransferEncoding && Undecided(p)
    requires SaysChunked(value) && 0 < n <= 7
    ensures Leads(p, value[..n], "", [], q) && MatchedChunked(q, n)
  {
    hide Run, Leads, Step, Valid;
    var c := value[n - 1];
    if n == 1 {
      ChunkedFirst(p, c);
      ValueByte(p, c);
      q := Step(p, c).p;
      assert value[..1] == [c];
    } else {
      var r := ChunkedValue(p, value, n - 1);
      ChunkedLetter(r, n - 1, c);
      MatchedIsValid(r, n - 1);
      ValueByte(r, c);
      q := Step(r, c).p;
      LeadsSilently(p, value[..n - 1], "", [], r, [c], q);
      assert value[..n - 1] + [c] == value[..n];
    }
  }

  lemma {:induction false} MatchedIsValid(p: Parser, n: nat)
    requires MatchedChunked(p, n)
    ensures Valid(p) && p.state == InValue
  {
  }

  /** The line that says that the body is chunked. */
  lemma {:induction false} ChunkedLine(p: Parser, name: string, padding: string, value: string) returns (q: Parser)
    requires AtHeader(p) && IsName(name) && name != "" && IsPadding(padding) &&
      LowerCase(name) == "transfer-encoding" && SaysChunked(value)
    ensures Leads(p, name + ":" + padding + value + CRLF, "", [], q) && SaidChunked(q)
  {
    hide Run, Leads;
    StartValid(p);
    var r := KnowsName(LineStart(p), name, padding);
    var s := ChunkedValue(r, value, 7);
    assert value[..7] == value;
    LeadsSilently(LineStart(p), name + ":" + padding, "", [], r, value, s);
    LineEnds(s);
    q := s.(state := At(ValueLws));
    LeadsSilently(LineStart(p), name + ":" + padding + value, "", [], s, CRLF, q);
    StartsLine(p, name + ":" + padding + value + CRLF, "", [], q);
  }

  predicate SaidChunked(p: Parser) {
    AtLine(p) && LineStart(p).flags.chunked && Undecided(LineStart(p).(flags := LineStart(p).flags.(chunked := false)))
  }

  lemma {:induction false} StaysChunked(p: Parser, q: Parser)
    requires SaidChunked(p) && AtLine(q) && SameFraming(LineStart(p), LineStart(q))
    ensures SaidChunked(q)
  {
  }

  lemma {:induction false} ChunkedEnds(p: Parser) returns (q: Parser)
    requires SaidChunked(p)
    ensures Leads(p, CRLF, "", [], q) && Valid(q) && q.state == AtChunk(SizeStart)
  {
    hide Run, Leads;
    HeaderEnds(p, AtChunk(SizeStart));
    q := LineStart(p).(upgrade := false, state := AtChunk(SizeStart));
  }

  lemma {:induction false} ChunkedHeader(p: Parser, h: Header) returns (q: Parser)
    requires AtHeader(p) && h.WellFormed() && LowerCase(h.name) == "transfer-encoding" && SaysChunked(h.value)
    ensures Leads(p, h.Text(), "", [], q) && Valid(q) && q.state == AtChunk(SizeStart)
  {
    hide Run, Leads, AtLine, LineStart;
    var line := h.name + ":" + h.padding + h.value + CRLF;
    var r := PlainLinesLead(p, h.before);
    StaysHeader(p, r);
    var s := ChunkedLine(r, h.name, h.padding, h.value);
    LeadsSilently(p, LineTexts(h.before), "", [], r, line, s);
    var t := PlainLinesLead(s, h.after);
    StaysChunked(s, t);
    LeadsSilently(p, LineTexts(h.before) + line, "", [], s, LineTexts(h.after), t);
    q := ChunkedEnds(t);
    LeadsSilently(p, LineTexts(h.before) + line + LineTexts(h.after), "", [], t, CRLF, q);
  }

  /** A message that says it is chunked delivers the data of its chunks. */
  lemma {:induction false} ChunkedMessage(p: Parser, h: Header, b: Body) returns (q: Parser)
    requires AtHeader(p) && h.WellFormed() && LowerCase(h.name) == "transfer-encoding" && SaysChunked(h.value) &&
      b.WellFormed()
    ensures Leads(p, h.Text() + b.Text(), AllData(b.chunks), [MessageComplete], q) && q.state == q.NewMessage()
  {
    hide Run, Leads;
    var u := ChunkedHeader(p, h);
    q := ChunkedBody(u, b);
    LeadsAfter(p, h.Text(), u, b.Text(), AllData(b.chunks), [MessageComplete], q);
  }

  // ----- the status line -----

  /** A byte after which only the state differs. */
  lemma {:induction false} PlainByte(p: Parser, c: char, q: Parser)
    requires Valid(p) && Step(p, c) == Effect(q, [], false, false)
    ensures Leads(p, [c], "", [], q) && Valid(q)
  {
    hide Run, Step;
    StepSound(p, c);
    OneByte(p, c);
  }

  lemma {:induction false} Protocol(p: Parser) returns (q: Parser)
    requires Valid(p) && p.state == At(StartRes)
    ensures Leads(p, "HTTP/", "", [MessageBegin], q) && Valid(q) && q.state == At(ResFirstMajor)
    ensures q.flags == NO_FLAGS && q.verb == p.verb
  {
    hide Run, Leads, Valid;
    var a := p.(flags := NO_FLAGS, contentLength := ULLONG_MAX, state := At(ResH));
    assert Step(p, 'H') == Effect(a, [MessageBegin], false, false);
    StepValid(p, 'H');
    OneByte(p, 'H');
    ReadOne(MessageBegin);
    var b, c, d := a.(state := At(ResHT)), a.(state := At(ResHTT)), a.(state := At(ResHTTP));
    q := a.(state := At(ResFirstMajor));
    PlainByte(a, 'T', b);
    PlainByte(b, 'T', c);
    PlainByte(c, 'P', d);
    PlainByte(d, '/', q);
    LeadsSilently(p, "H", "", [MessageBegin], a, "T", b);
    LeadsSilently(p, "H" + "T", "", [MessageBegin], b, "T", c);
    LeadsSilently(p, "H" + "T" + "T", "", [MessageBegin], c, "P", d);
    LeadsSilently(p, "H" + "T" + "T" + "P", "", [MessageBegin], d, "/", q);
    assert "H" + "T" + "T" + "P" + "/" == "HTTP/";
  }

  lemma {:induction false} StepValid(p: Parser, c: char)
    requires Valid(p) && Step(p, c).Effect?
    ensures Valid(Step(p, c).p)
  {
    StepSound(p, c);
  }

  /** A version of one digit each. */
  lemma {:induction false} Version(p: Parser, major: char, minor: char) returns (q: Parser)
    requires Valid(p) && p.state == At(ResFirstMajor) && IsNum(major) && IsNum(minor)
    ensures Leads(p, [major, '.', minor, ' '], "", [], q) && Valid(q) && q.state == At(ResFirstStatusCode)
    ensures q.flags == p.flags && q.verb == p.verb
  {
    hide Run, Leads, Valid;
    var a := p.(major := Digit(major), state := At(ResMajor));
    var b := a.(state := At(ResFirstMinor));
    var c := b.(minor := Digit(minor), state := At(ResMinor));
    q := c.(state := At(ResFirstStatusCode));
    PlainByte(p, major, a);
    PlainByte(a, '.', b);
    PlainByte(b, minor, c);
    PlainByte(c, ' ', q);
    LeadsSilently(p, [major], "", [], a, ".", b);
    LeadsSilently(p, [major] + ".", "", [], b, [minor], c);
    LeadsSilently(p, [major] + "." + [minor], "", [], c, " ", q);
    assert [major] + "." + [minor] + " " == [major, '.', minor, ' '];
  }

  lemma {:induction false} Status(p: Parser, code: string) returns (q: Parser)
    requires Valid(p) && p.state == At(ResFirstStatusCode) && |code| == 3 && AllNum(code)
    ensures Leads(p, code + " ", "", [], q) && Valid(q) && q.state == At(ResStatusStart)
    ensures q.flags == p.flags && q.verb == p.verb && q.status == DecFrom(0, code)
  {
    hide Run, Leads, Valid;
    var d, e, f := Digit(code[0]), Digit(code[1]), Digit(code[2]);
    var a := p.(status := d, state := At(ResStatusCode));
    var b := a.(status := 10 * d + e);
    var c := b.(status := 100 * d + 10 * e + f);
    q := c.(state := At(ResStatusStart));
    PlainByte(p, code[0], a);
    PlainByte(a, code[1], b);
    PlainByte(b, code[2], c);
    PlainByte(c, ' ', q);
    LeadsSilently(p, [code[0]], "", [], a, [code[1]], b);
    LeadsSilently(p, [code[0]] + [code[1]], "", [], b, [code[2]], c);
    LeadsSilently(p, [code[0]] + [code[1]] + [code[2]], "", [], c, " ", q);
    assert [code[0]] + [code[1]] + [code[2]] == code && [code[0]] + [code[1]] + [code[2]] + " " == code + " ";
    DecThree(code);
  }

  lemma {:induction false} DecThree(code: string)
    requires |code| == 3 && AllNum(code)
    ensures DecFrom(0, code) == 100 * Digit(code[0]) + 10 * Digit(code[1]) + Digit(code[2])
  {
    var a := Digit(code[0]);
    assert DecFrom(0, code) == DecFrom(a, code[1..]);
    assert code[1..][0] == code[1] && code[1..][1..] == code[2..] && code[2..][0] == code[2] && code[2..][1..] == "";
    assert DecFrom(a, code[1..]) == DecFrom(10 * a + Digit(code[1]), code[2..]);
  }

  /** The reason behind the status. */
  lemma {:induction false} Reason(p: Parser, reason: string) returns (q: Parser)
    requires Valid(p) && (p.state == At(ResStatusStart) || p.state == InStatus) && InLine(reason)
    ensures Leads(p, reason + CRLF, "", [], q) && AtLine(q) && q.state == At(FieldStart)
    ensures q.flags == p.flags && q.verb == p.verb && q.status == p.status
    decreases |reason|
  {
    hide Run, Leads, Valid;
    if reason == "" {
      var a := p.(state := At(ResLineAlmostDone));
      q := p.(state := At(FieldStart));
      PlainByte(p, CR, a);
      PlainByte(a, LF, q);
      LeadsSilently(p, [CR], "", [], a, [LF], q);
      assert [CR] + [LF] == reason + CRLF;
    } else {
      var c := reason[0];
      var a := ReasonByte(p, c);
      q := Reason(a, reason[1..]);
      LeadsSilently(p, [c], "", [], a, reason[1..] + CRLF, q);
      assert [c] + (reason[1..] + CRLF) == reason + CRLF;
    }
  }

  lemma {:induction false} ReasonByte(p: Parser, c: char) returns (q: Parser)
    requires Valid(p) && (p.state == At(ResStatusStart) || p.state == InStatus) && c != CR && c != LF
    ensures Leads(p, [c], "", [], q) && Valid(q) && q.state == InStatus && q.flags == p.flags && q.verb == p.verb &&
      q.status == p.status
  {
    hide Run;
    StepSound(p, c);
    OneByte(p, c);
    ReadOne(Data(OnStatus, [c]));
    q := Step(p, c).p;
  }

  /** The first line of a response. */
  datatype FirstLine = FirstLine(major: char, minor: char, code: string, reason: string)
  {
    predicate WellFormed() { IsNum(major) && IsNum(minor) && |code| == 3 && AllNum(code) && InLine(reason) }

    function Text(): string { "HTTP/" + [major, '.', minor, ' '] + (code + " ") + (reason + CRLF) }
  }

  lemma {:induction false} FirstLineLeads(p: Parser, l: FirstLine) returns (q: Parser)
    requires Valid(p) && p.state == At(StartRes) && p.verb != CONNECT && l.WellFormed()
    ensures Leads(p, l.Text(), "", [MessageBegin], q) && AtHeader(q) && q.status == DecFrom(0, l.code)
  {
    hide Run, Leads;
    var a := Protocol(p);
    var b := Version(a, l.major, l.minor);
    var c := Status(b, l.code);
    q := Reason(c, l.reason);
    LeadsSilently(p, "HTTP/", "", [MessageBegin], a, [l.major, '.', l.minor, ' '], b);
    LeadsSilently(p, "HTTP/" + [l.major, '.', l.minor, ' '], "", [MessageBegin], b, l.code + " ", c);
    LeadsSilently(p, "HTTP/" + [l.major, '.', l.minor, ' '] + (l.code + " "), "", [MessageBegin], c, l.reason + CRLF,
      q);
  }

  // ----- line breaks in front of a response -----

  /** Carriage returns and line feeds. */
  predicate Breaks(s: string) { forall i :: 0 <= i < |s| ==> s[i] == CR || s[i] == LF }

  function Beginnings(n: nat): seq<Event> { if n == 0 then [] else [MessageBegin] + Beginnings(n - 1) }

  /** A byte in front of a response: line breaks and only they leave the parser waiting for
      it, but all bytes that are accepted report a beginning. */
  lemma {:induction false} BeginsAt(p: Parser, c: char)
    requires p.state == At(StartRes)
    ensures var e := Step(p, c);
      (e.Effect? <==> c == 'H' || c == CR || c == LF) &&
      (e.Effect? ==> e.events == [MessageBegin] && (e.p.state == At(StartRes) <==> c != 'H'))
  {
  }

  lemma {:induction false} BreaksLead(p: Parser, breaks: string) returns (q: Parser)
    requires Valid(p) && p.state == At(StartRes) && Breaks(breaks)
    ensures Leads(p, breaks, "", Beginnings(|breaks|), q)
    ensures Valid(q) && q.state == At(StartRes) && q.verb == p.verb
    decreases |breaks|
  {
    hide Run, Leads;
    if breaks == "" {
      Nowhere(p);
      q := p;
    } else {
      var r := OneBreak(p, breaks[0]);
      q := BreaksLead(r, breaks[1..]);
      LeadsOn(p, [breaks[0]], "", [MessageBegin], r, breaks[1..], "", Beginnings(|breaks| - 1), q);
      assert [breaks[0]] + breaks[1..] == breaks && "" + "" == "";
    }
  }

  lemma {:induction false} OneBreak(p: Parser, c: char) returns (q: Parser)
    requires Valid(p) && p.state == At(StartRes) && (c == CR || c == LF)
    ensures Leads(p, [c], "", [MessageBegin], q) && Valid(q) && q.state == At(StartRes) && q.verb == p.verb
  {
    hide Run;
    q := Step(p, c).p;
    OneByte(p, c);
    ReadOne(MessageBegin);
  }

  /** A response with line breaks in front of it is reported to begin once for each of
      them, and once more: exactly once exactly if its text does not start with one. */
  lemma {:induction false} BeginsOften(p: Parser, breaks: string, l: FirstLine) returns (q: Parser)
    requires Valid(p) && p.state == At(StartRes) && p.verb != CONNECT && Breaks(breaks) && l.WellFormed()
    ensures Leads(p, breaks + l.Text(), "", Beginnings(|breaks| + 1), q) && AtHeader(q)
    ensures (breaks + l.Text())[0] !in [CR, LF] <==> Beginnings(|breaks| + 1) == [MessageBegin]
  {
    hide Run, Leads;
    var a := BreaksLead(p, breaks);
    q := FirstLineLeads(a, l);
    LeadsOn(p, breaks, "", Beginnings(|breaks|), a, l.Text(), "", [MessageBegin], q);
    BeginningsMore(|breaks|);
    BeginningsMore(|breaks| + 1);
    assert "" + "" == "" && l.Text()[0] == 'H';
  }

  lemma {:induction false} BeginningsMore(n: nat)
    ensures Beginnings(n) + [MessageBegin] == Beginnings(n + 1) && |Beginnings(n)| == n
  {
    if n > 0 { BeginningsMore(n - 1); }
  }

  /** Two line breaks and no response: two messages are reported to begin. */
  lemma {:induction false} BeginsTwice()
    ensures var o := Run(Initial(Response), "\n\n"); o.ending == Through && o.events == [MessageBegin, MessageBegin]
  {
    hide Run;
    var p, s := Initial(Response), "\n\n";
    var q := Step(p, LF).p;
    assert Step(p, LF) == Effect(q, [MessageBegin], false, false);
    assert Step(q, LF) == Effect(q, [MessageBegin], false, false);
    Turn(p, s);
    Turn(q, s[1..]);
    RunNothing(q);
    assert s[1..][1..] == "";
  }

  // ----- any split of the input -----

  /** Input that leads somewhere does so in whatever pieces it comes: the same body and
      notifications are delivered. */
  method Deliver(h: HttpParser, pieces: seq<string>, ghost acc: seq<Event>, ghost body: string,
                 ghost notices: seq<Event>, ghost q: Parser)
    returns (out: seq<Event>)
    requires h.Good() && h.errno == OK && Fits(acc, h.parser.state) && NoneEmpty(pieces)
    requires Leads(h.parser, Joined(pieces), body, notices, q)
    modifies h
    ensures h.errno == OK && h.Good() && h.parser == q && BodyOf(out) == body && Notices(out) == notices
  {
    hide Run, Feed, BodyOf, Notices;
    ghost var p := h.parser;
    out := h.ExecutePieces(pieces, acc);
    SameWhenJoined(acc, out, Run(p, Joined(pieces)).events);
  }

  /** A chunked response, in any pieces: on_body delivers exactly the data of the chunks,
      and the message is complete, once. It begins once, if no line breaks are in front. */
  method DeliverChunked(h: HttpParser, pieces: seq<string>, ghost acc: seq<Event>, ghost breaks: string,
                        ghost l: FirstLine, ghost head: Header, ghost b: Body)
    returns (out: seq<Event>)
    requires h.Good() && h.errno == OK && NoneEmpty(pieces) && h.parser.state == At(StartRes) &&
      h.parser.verb != CONNECT
    requires l.WellFormed() && head.WellFormed() && LowerCase(head.name) == "transfer-encoding" &&
      SaysChunked(head.value)
    requires Breaks(breaks) && b.WellFormed() && Joined(pieces) == breaks + l.Text() + (head.Text() + b.Text())
    modifies h
    ensures h.errno == OK && h.Good() && BodyOf(out) == AllData(b.chunks) &&
      Notices(out) == Beginnings(|breaks| + 1) + [MessageComplete]
    ensures h.parser.state == h.parser.NewMessage()
  {
    hide Run, Leads;
    ghost var p := BeginsOften(h.parser, breaks, l);
    ghost var q := ChunkedMessage(p, head, b);
    ghost var begun := Beginnings(|breaks| + 1);
    LeadsOn(h.parser, breaks + l.Text(), "", begun, p, head.Text() + b.Text(), AllData(b.chunks), [MessageComplete], q);
    assert "" + AllData(b.chunks) == AllData(b.chunks);
    out := Deliver(h, pieces, acc, AllData(b.chunks), begun + [MessageComplete], q);
  }

  /** The same for a response with a Content-Length. */
  method DeliverIdentity(h: HttpParser, pieces: seq<string>, ghost acc: seq<Event>, ghost breaks: string,
                         ghost l: FirstLine, ghost head: Header, ghost data: string)
    returns (out: seq<Event>)
    requires h.Good() && h.errno == OK && NoneEmpty(pieces) && h.parser.state == At(StartRes) &&
      h.parser.verb != CONNECT
    requires l.WellFormed() && head.WellFormed() && LowerCase(head.name) == "content-length" && AllNum(head.value) &&
      head.value != ""
    requires DecFrom(0, head.value) == |data| <= ULLONG_MAX - 6
    requires Breaks(breaks) && Joined(pieces) == breaks + l.Text() + (head.Text() + data)
    modifies h
    ensures h.errno == OK && h.Good() && BodyOf(out) == data &&
      Notices(out) == Beginnings(|breaks| + 1) + [MessageComplete]
    ensures h.parser.state == h.parser.NewMessage()
  {
    hide Run, Leads;
    ghost var p := BeginsOften(h.parser, breaks, l);
    ghost var q := LengthMessage(p, head, data);
    ghost var begun := Beginnings(|breaks| + 1);
    LeadsOn(h.parser, breaks + l.Text(), "", begun, p, head.Text() + data, data, [MessageComplete], q);
    assert "" + data == data;
    out := Deliver(h, pieces, acc, data, begun + [MessageComplete], q);
  }

  // ----- the order of the callbacks -----

  /** Whether a message has begun, after the callbacks `es`, and before them if `b`. */
  function Begun(b: bool, es: seq<Event>): bool
    decreases |es|
  {
    if es == [] then b else Begun(if es[0].Data? then b else es[0].MessageBegin?, es[1..])
  }

  /** Data and completion only come after the beginning of their message; with `once`, it
      is reported only once. */
  predicate Nested(once: bool, b: bool, es: seq<Event>)
    decreases |es|
  {
    es != [] ==>
      match es[0]
      case MessageBegin => !(once && b) && Nested(once, true, es[1..])
      case MessageComplete => b && Nested(once, false, es[1..])
      case Data(_, _) => b && Nested(once, b, es[1..])
  }

  /** What ties the parser's state to the callbacks. A server of responses reports the
      beginning of a message for every line break in front of it. */
  predicate Between(p: Parser, b: bool) {
    (InMessage(p.state) ==> b) && (p.state == At(StartReqOrRes) ==> !b) &&
    (p.kind == Request ==>
      p.state != At(StartRes) && p.state != At(StartReqOrRes) && p.state != At(ResOrRespH) &&
      (!InMessage(p.state) ==> !b))
  }

  lemma {:induction false} NestedAppend(once: bool, b: bool, es: seq<Event>, fs: seq<Event>)
    requires Nested(once, b, es) && Nested(once, Begun(b, es), fs)
    ensures Nested(once, b, es + fs) && Begun(b, es + fs) == Begun(Begun(b, es), fs)
    decreases |es|
  {
    if es == [] {
      assert es + fs == fs;
    } else {
      NestedAppend(once, if es[0].Data? then b else es[0].MessageBegin?, es[1..], fs);
      assert (es + fs)[1..] == es[1..] + fs && (es + fs)[0] == es[0];
    }
  }

  predicate Tidy(p: Parser, b: bool, e: Effect) {
    e.Effect? ==>
      Nested(p.kind == Request, b, e.events) && Between(e.p, Begun(b, e.events)) &&
      (p.kind == Request ==> e.p.kind == Request)
  }

  lemma {:induction false} StartTidy(p: Parser, at: Place, c: char, b: bool)
    requires p.state == At(at) && StartPlace(at) && Between(p, b)
    ensures Tidy(p, b, StartStep(p, at, c))
  {
  }

  /** Turns inside of a message that stay in it. */
  predicate Inside(p: Parser, e: Effect) {
    e.Effect? ==>
      e.p.kind == p.kind && InMessage(e.p.state) && e.p.state != At(ResOrRespH) &&
      (e.events == [] || (|e.events| == 1 && e.events[0].Data?))
  }

  lemma {:induction false} InsideTidy(p: Parser, b: bool, e: Effect)
    requires Between(p, b) && InMessage(p.state) && Inside(p, e)
    ensures Tidy(p, b, e)
  {
    if e.Effect? && e.events != [] { assert e.events[1..] == []; }
  }

  lemma {:induction false} CompleteTidy(p: Parser, b: bool, q: Parser, e: Effect)
    requires Between(p, b) && InMessage(p.state) && e.Effect? && e.events == [MessageComplete] && q.kind == p.kind
    requires e.p == q.(state := q.NewMessage())
    ensures Tidy(p, b, e)
  {
    assert [MessageComplete][1..] == [];
  }

  lemma {:induction false} ResponseInside(p: Parser, at: Place, c: char)
    requires p.state == At(at) && ResponsePlace(at)
    ensures Inside(p, ResponseStep(p, at, c))
  {
  }

  lemma {:induction false} RequestInside(p: Parser, at: Place, c: char)
    requires p.state == At(at) && !StartPlace(at) && !ResponsePlace(at)
    ensures Inside(p, RequestStep(p, at, c))
  {
  }

  lemma {:induction false} ValueInside(p: Parser, at: Place, c: char)
    requires p.state == At(at) && ValuePlace(at)
    ensures Inside(p, AroundValueStep(p, at, c))
  {
  }

  lemma {:induction false} EndTidy(p: Parser, at: Place, c: char, b: bool)
    requires p.state == At(at) && (at.HeadersAlmostDone? || at.HeadersDone?) && Between(p, b)
    ensures Tidy(p, b, HeadersEndStep(p, at, c))
  {
    var e := HeadersEndStep(p, at, c);
    if e.Effect? && e.events == [MessageComplete] { CompleteTidy(p, b, p, e); } else { InsideTidy(p, b, e); }
  }

  lemma {:induction false} PlaceTidy(p: Parser, at: Place, c: char, b: bool)
    requires Valid(p) && p.state == At(at) && Between(p, b)
    ensures Tidy(p, b, PlaceStep(p, at, c))
  {
    hide Nested, Begun, Between, StartStep, ResponseStep, RequestStep, AroundValueStep, HeadersEndStep;
    if StartPlace(at) {
      StartTidy(p, at, c, b);
    } else if at.HeadersAlmostDone? || at.HeadersDone? {
      EndTidy(p, at, c, b);
    } else if at.MessageDone? {
      CompleteTidy(p, b, p, Complete(p));
    } else {
      if ResponsePlace(at) { ResponseInside(p, at, c); }
      else if ValuePlace(at) { ValueInside(p, at, c); }
      else if !at.FieldStart? { RequestInside(p, at, c); }
      InsideTidy(p, b, PlaceStep(p, at, c));
    }
  }

  lemma {:induction false} ChunkInside(p: Parser, at: ChunkPlace, c: char)
    requires p.state == AtChunk(at)
    ensures Inside(p, ChunkStep(p, at, c))
  {
  }

  lemma {:induction false} DataInside(p: Parser, c: char)
    requires p.state == InField || p.state == InValue
    ensures Inside(p, Step(p, c))
  {
  }

  lemma {:induction false} OtherInside(p: Parser, c: char)
    requires !p.state.At?
    ensures Inside(p, Step(p, c))
  {
    if p.state.AtChunk? {
      ChunkInside(p, p.state.chunk, c);
    } else if p.state == InField || p.state == InValue {
      DataInside(p, c);
    }
    hide ChunkStep, FieldStep, ValueStep;
  }

  lemma {:induction false} StepTidy(p: Parser, c: char, b: bool)
    requires Valid(p) && Between(p, b)
    ensures Tidy(p, b, Step(p, c))
  {
    if p.state.At? {
      PlaceTidy(p, p.state.place, c, b);
    } else {
      OtherInside(p, c);
      InsideTidy(p, b, Step(p, c));
    }
  }

  lemma {:induction false} ByteTidy(p: Parser, c: char, b: bool)
    requires Valid(p) && Between(p, b)
    ensures Tidy(p, b, Byte(p, c))
    decreases Rank(p.state)
  {
    hide Step, Nested, Begun, Between;
    StepSound(p, c);
    StepTidy(p, c, b);
    var e := Step(p, c);
    if e.Effect? && e.again {
      ByteTidy(e.p, c, Begun(b, e.events));
      var f := Byte(e.p, c);
      if f.Effect? { TidyAppend(p, b, e.p, e.events, f.p, f.events); }
    }
  }

  lemma {:induction false} NestedMore(once: bool, b: bool, es: seq<Event>)
    requires Nested(true, b, es)
    ensures Nested(once, b, es)
    decreases |es|
  {
    if es != [] { NestedMore(once, if es[0].Data? then b else es[0].MessageBegin?, es[1..]); }
  }

  lemma {:induction false} TidyAppend(p: Parser, b: bool, q: Parser, es: seq<Event>, r: Parser, fs: seq<Event>)
    requires Nested(p.kind == Request, b, es) && (p.kind == Request ==> q.kind == Request)
    requires Nested(q.kind == Request, Begun(b, es), fs) && Between(r, Begun(Begun(b, es), fs))
    ensures Nested(p.kind == Request, b, es + fs) && Between(r, Begun(b, es + fs))
  {
    hide Nested, Between;
    if q.kind == Request { NestedMore(p.kind == Request, Begun(b, es), fs); }
    NestedAppend(p.kind == Request, b, es, fs);
  }

  /** Over any input, callbacks come message by message: each completion and all data
      after a beginning, and for requests the beginning exactly once. */
  lemma {:induction false} RunNested(p: Parser, data: string, b: bool)
    requires Valid(p) && Between(p, b)
    ensures var o := Run(p, data);
      Nested(p.kind == Request, b, o.events) &&
      (!o.ending.Refused? ==> Between(o.p, Begun(b, o.events)))
    decreases |data|
  {
    hide Byte, Nested, Begun, Between;
    if data == [] {
      NothingNested(p.kind == Request, b);
    } else {
      ByteSound(p, data[0]);
      ByteTidy(p, data[0], b);
      var e := Byte(p, data[0]);
      if e.Error? {
        NothingNested(p.kind == Request, b);
      } else if !e.stop {
        RunNested(e.p, data[1..], Begun(b, e.events));
        RunJoins(p, data, b, e);
      }
    }
  }

  lemma {:induction false} NothingNested(once: bool, b: bool)
    ensures Nested(once, b, []) && Begun(b, []) == b
  {
  }

  lemma {:induction false} RunJoins(p: Parser, data: string, b: bool, e: Effect)
    requires data != "" && Valid(p) && e == Byte(p, data[0]) && Tidy(p, b, e) && e.Effect? && !e.stop && Valid(e.p)
    requires var o := Run(e.p, data[1..]);
      Nested(e.p.kind == Request, Begun(b, e.events), o.events) &&
      (!o.ending.Refused? ==> Between(o.p, Begun(Begun(b, e.events), o.events)))
    ensures var o := Run(p, data);
      Nested(p.kind == Request, b, o.events) && (!o.ending.Refused? ==> Between(o.p, Begun(b, o.events)))
  {
    hide Byte, Nested, Begun, Between;
    var o := Run(e.p, data[1..]);
    if e.p.kind == Request { NestedMore(p.kind == Request, Begun(b, e.events), o.events); }
    NestedAppend(p.kind == Request, b, e.events, o.events);
  }
}
