/** Bodies and messages: what whole runs of the parser deliver, however the input and its
    callbacks are cut. */
module HttpBodies {
  import opened HttpChars
  import opened HttpSteps
  import opened HttpRuns
  import HttpParser

  function BodyBytes(e: Event): string { if e.Data? && e.field == OnBody then e.bytes else "" }

  /** The bytes that on_body delivers. */
  function BodyOf(es: seq<Event>): string { if es == [] then "" else BodyBytes(es[0]) + BodyOf(es[1..]) }

  function Notice(e: Event): seq<Event> { if e.Data? then [] else [e] }

  /** The callbacks without data. */
  function Notices(es: seq<Event>): seq<Event> { if es == [] then [] else Notice(es[0]) + Notices(es[1..]) }

  lemma {:induction false} ReadAppend(a: seq<Event>, b: seq<Event>)
    ensures BodyOf(a + b) == BodyOf(a) + BodyOf(b)
    ensures Notices(a + b) == Notices(a) + Notices(b)
  {
    hide BodyBytes, Notice;
    if a == [] {
      assert a + b == b;
    } else {
      ReadAppend(a[1..], b);
      assert (a + b)[1..] == a[1..] + b && (a + b)[0] == a[0];
      Regroup(BodyBytes(a[0]), BodyOf(a[1..]), BodyOf(b));
      Regroup(Notice(a[0]), Notices(a[1..]), Notices(b));
    }
  }

  lemma {:induction false} Regroup<T>(x: seq<T>, y: seq<T>, z: seq<T>)
    ensures x + (y + z) == x + y + z
  {
  }

  lemma {:induction false} ReadOne(e: Event)
    ensures BodyOf([e]) == BodyBytes(e) && Notices([e]) == Notice(e)
  {
    assert [e][1..] == [];
  }

  lemma {:induction false} ReadAdd(acc: seq<Event>, e: Event)
    ensures BodyOf(Add(acc, e)) == BodyOf(acc) + BodyOf([e])
    ensures Notices(Add(acc, e)) == Notices(acc) + Notices([e])
  {
    hide BodyOf, Notices;
    if e.Data? && Open(acc, e.field) {
      var most, last := acc[..|acc| - 1], acc[|acc| - 1];
      assert acc == most + [last] && Add(acc, e) == most + [Data(e.field, last.bytes + e.bytes)];
      ReadAppend(most, [last]);
      ReadAppend(most, [Data(e.field, last.bytes + e.bytes)]);
      ReadJoined(last, e);
      Regroup(BodyOf(most), BodyOf([last]), BodyOf([e]));
      Regroup(Notices(most), Notices([last]), Notices([e]));
    } else {
      ReadAppend(acc, [e]);
    }
  }

  lemma {:induction false} ReadJoined(last: Event, e: Event)
    requires e.Data? && last.Data? && last.field == e.field
    ensures var j := Data(e.field, last.bytes + e.bytes);
      BodyOf([j]) == BodyOf([last]) + BodyOf([e]) && Notices([j]) == Notices([last]) + Notices([e])
  {
    ReadOne(last);
    ReadOne(e);
    ReadOne(Data(e.field, last.bytes + e.bytes));
  }

  /** Joining callbacks changes neither the body nor the notifications. */
  lemma {:induction false} ReadFeed(acc: seq<Event>, es: seq<Event>)
    ensures BodyOf(Feed(acc, es)) == BodyOf(acc) + BodyOf(es)
    ensures Notices(Feed(acc, es)) == Notices(acc) + Notices(es)
    decreases |es|
  {
    if es != [] {
      ReadFeed(Add(acc, es[0]), es[1..]);
      ReadAdd(acc, es[0]);
      ReadAppend([es[0]], es[1..]);
      assert [es[0]] + es[1..] == es;
    }
  }

  /** Callbacks that join to the same deliver the same body and notifications. */
  lemma {:induction false} SameWhenJoined(acc: seq<Event>, a: seq<Event>, b: seq<Event>)
    requires Feed(acc, a) == Feed(acc, b)
    ensures BodyOf(a) == BodyOf(b) && Notices(a) == Notices(b)
  {
    ReadFeed(acc, a);
    ReadFeed(acc, b);
    assert (BodyOf(acc) + BodyOf(a))[|BodyOf(acc)|..] == BodyOf(a);
    assert (BodyOf(acc) + BodyOf(b))[|BodyOf(acc)|..] == BodyOf(b);
    assert (Notices(acc) + Notices(a))[|Notices(acc)|..] == Notices(a);
    assert (Notices(acc) + Notices(b))[|Notices(acc)|..] == Notices(b);
  }

  // ----- runs that go through -----

  /** All of `data` is parsed, from `p` to `q`, with this body and these notifications. */
  ghost predicate Leads(p: Parser, data: string, body: string, notices: seq<Event>, q: Parser) {
    Valid(p) && var o := Run(p, data);
    o.ending == Through && o.p == q && o.used == |data| && BodyOf(o.events) == body && Notices(o.events) == notices
  }

  lemma {:induction false} LeadsOn(p: Parser, a: string, body: string, ns: seq<Event>, q: Parser, b: string,
                                   body': string, ns': seq<Event>, r: Parser)
    requires Leads(p, a, body, ns, q) && Leads(q, b, body', ns', r)
    ensures Leads(p, a + b, body + body', ns + ns', r)
  {
    hide Run;
    RunAppend(p, a, b);
    ReadAppend(Run(p, a).events, Run(q, b).events);
  }

  /** More input that delivers nothing. */
  lemma {:induction false} LeadsSilently(p: Parser, a: string, body: string, ns: seq<Event>, q: Parser, b: string,
                                         r: Parser)
    requires Leads(p, a, body, ns, q) && Leads(q, b, "", [], r)
    ensures Leads(p, a + b, body, ns, r)
  {
    LeadsOn(p, a, body, ns, q, b, "", [], r);
    assert body + "" == body && ns + [] == ns;
  }

  lemma {:induction false} LeadsAfter(p: Parser, a: string, q: Parser, b: string, body: string, ns: seq<Event>,
                                      r: Parser)
    requires Leads(p, a, "", [], q) && Leads(q, b, body, ns, r)
    ensures Leads(p, a + b, body, ns, r)
  {
    LeadsOn(p, a, "", [], q, b, body, ns, r);
    assert "" + body == body && [] + ns == ns;
  }

  lemma {:induction false} Nowhere(p: Parser)
    requires Valid(p)
    ensures Leads(p, "", "", [], p)
  {
  }

  lemma {:induction false} OneByte(p: Parser, c: char)
    requires Valid(p) && Step(p, c).Effect? && !Step(p, c).again && !Step(p, c).stop
    ensures Leads(p, [c], BodyOf(Step(p, c).events), Notices(Step(p, c).events), Step(p, c).p)
  {
    hide Step;
    StepSound(p, c);
    Turn(p, [c]);
    assert [c][1..] == [];
    var es := Step(p, c).events;
    assert es + [] == es;
  }

  /** A byte that is looked at again after a turn without notification. */
  lemma {:induction false} OneByteAgain(p: Parser, c: char, body: string, ns: seq<Event>, r: Parser)
    requires Valid(p) && Step(p, c).Effect? && Step(p, c).again && Leads(Step(p, c).p, [c], body, ns, r)
    requires BodyOf(Step(p, c).events) == "" && Notices(Step(p, c).events) == []
    ensures Leads(p, [c], body, ns, r)
  {
    hide Step, Run;
    StepSound(p, c);
    Turn(p, [c]);
    ReadAppend(Step(p, c).events, Run(Step(p, c).p, [c]).events);
    assert "" + body == body && [] + ns == ns;
  }

  // ----- bodies of known length -----

  lemma {:induction false} ReadSingles(bytes: string)
    ensures BodyOf(Singles(OnBody, bytes)) == bytes && Notices(Singles(OnBody, bytes)) == []
    decreases |bytes|
  {
    if bytes != [] {
      ReadSingles(bytes[1..]);
      ReadOne(Data(OnBody, bytes[..1]));
      ReadAppend([Data(OnBody, bytes[..1])], Singles(OnBody, bytes[1..]));
      assert bytes[..1] + bytes[1..] == bytes;
    }
  }

  lemma {:induction false} ManyBytes(p: Parser, data: string)
    requires Valid(p) && BodyState(p.state)
    requires (p.state.InBody? ==> |data| < p.contentLength) && (p.state.InChunk? ==> |data| <= p.contentLength)
    ensures Leads(p, data, data, [], HttpParser.Shorter(p, |data|))
  {
    hide Run;
    assert data[0..] == data && data[0..|data|] == data && data[|data|..] == "";
    assert [] + Run(p, data).events == Run(p, data).events;
    HttpParser.BodyGoesOn(p, data, [], 0, p, |data|);
    RunNothing(HttpParser.Shorter(p, |data|));
    ReadSingles(data);
    var es := Singles(OnBody, data);
    assert [] + es == es && es + [] == es;
  }

  /** A body of the length of its Content-Length is delivered whole, and then the message
      is complete, once. */
  lemma {:induction false} IdentityBody(p: Parser, data: string)
    requires Valid(p) && p.state.InBody? && |data| == p.contentLength
    ensures Leads(p, data, data, [MessageComplete], Ended(p)) && Ended(p).state == p.NewMessage()
  {
    hide Leads, Run;
    var n := |data|;
    var a, c, q := data[..n - 1], data[n - 1], p.(contentLength := 1);
    ManyBytes(p, a);
    LastByte(q, c);
    LastJoined(p, a, q, c, Ended(p));
    assert a + [c] == data;
  }

  lemma {:induction false} LastJoined(p: Parser, a: string, q: Parser, c: char, r: Parser)
    requires Leads(p, a, a, [], q) && Leads(q, [c], [c], [MessageComplete], r)
    ensures Leads(p, a + [c], a + [c], [MessageComplete], r)
  {
    hide Leads;
    LeadsOn(p, a, a, [], q, [c], [c], [MessageComplete], r);
    assert [] + [MessageComplete] == [MessageComplete];
  }

  function Ended(p: Parser): Parser { p.(contentLength := 0, state := p.(contentLength := 0).NewMessage()) }

  lemma {:induction false} LastByte(p: Parser, c: char)
    requires Valid(p) && p.state.InBody? && p.contentLength == 1
    ensures Leads(p, [c], [c], [MessageComplete], Ended(p))
  {
    hide Run;
    var q := p.(contentLength := 0, state := At(MessageDone));
    assert Step(p, c) == Effect(q, [Data(OnBody, [c])], true, false);
    AfterLast(q, c);
    StepThenRun(p, c);
    ReadOne(Data(OnBody, [c]));
    ReadAppend([Data(OnBody, [c])], Run(q, [c]).events);
  }

  lemma {:induction false} AfterLast(q: Parser, c: char)
    requires Valid(q) && q.state == At(MessageDone)
    ensures Leads(q, [c], "", [MessageComplete], q.(state := q.NewMessage()))
  {
    OneByte(q, c);
    ReadOne(MessageComplete);
  }

  lemma {:induction false} StepThenRun(p: Parser, c: char)
    requires Valid(p) && Step(p, c).Effect? && Step(p, c).again
    ensures Valid(Step(p, c).p) && !Step(p, c).stop
    ensures var r := Run(Step(p, c).p, [c]);
      !r.ending.Refused? ==> Run(p, [c]) == r.After(0, Step(p, c).events)
  {
    hide Step, Run;
    StepSound(p, c);
    Turn(p, [c]);
  }

  // ----- chunk sizes -----

  /** A hexadecimal number, after `v` for the digits before it. */
  function HexFrom(v: nat, digits: string): nat
    requires AllHex(digits)
    decreases |digits|
  {
    if digits == "" then v else HexFrom(16 * v + Unhex(digits[0]), digits[1..])
  }

  predicate AllHex(s: string) { forall i :: 0 <= i < |s| ==> IsHex(s[i]) }

  lemma {:induction false} HexGrows(v: nat, digits: string)
    requires AllHex(digits)
    ensures HexFrom(v, digits) >= v
    decreases |digits|
  {
    if digits != "" { HexGrows(16 * v + Unhex(digits[0]), digits[1..]); }
  }

  lemma {:induction false} SizeDigit(p: Parser, c: char)
    requires Valid(p) && p.state == AtChunk(Size) && IsHex(c)
    ensures 0 <= Unhex(c) < 16
    ensures var v := 16 * p.contentLength + Unhex(c);
      Step(p, c) == if v <= ULLONG_MAX - 16 then Effect(p.(contentLength := v), [], false, false)
        else Error(INVALID_CONTENT_LENGTH)
  {
  }

  /** What can start a chunk size: exactly a hexadecimal digit, or a byte from 0x80 on,
      which is taken for the digit 0. */
  lemma {:induction false} SizeFirstByte(p: Parser, c: char)
    requires p.state == AtChunk(SizeStart)
    ensures Step(p, c).Effect? <==> IsHex(c) || c >= '\U{80}'
    ensures c >= '\U{80}' ==> Step(p, c) == Step(p, '0')
  {
  }

  /** What can go on with a chunk size that is not too large yet. */
  lemma {:induction false} SizeNextByte(p: Parser, c: char)
    requires p.state == AtChunk(Size) && p.contentLength <= (ULLONG_MAX - 16) / 16
    ensures Step(p, c).Effect? && Step(p, c).p.state == AtChunk(Size) <==> IsHex(c) || c >= '\U{80}'
    ensures c >= '\U{80}' ==> Step(p, c) == Step(p, '0')
  {
  }

  /** A chunk size is read as its value, or refused: exactly if it is too large, so that
      it neither wraps around nor is the mark for a missing length. */
  lemma {:induction false} SizeDigits(p: Parser, digits: string)
    requires Valid(p) && p.state == AtChunk(Size) && AllHex(digits) && digits != ""
    ensures if HexFrom(p.contentLength, digits) <= ULLONG_MAX - 16 then
        Leads(p, digits, "", [], p.(contentLength := HexFrom(p.contentLength, digits)))
      else Run(p, digits).ending == Refused(INVALID_CONTENT_LENGTH)
    decreases |digits|
  {
    hide Run, Step;
    var c, rest := digits[0], digits[1..];
    assert digits == [c] + rest;
    var v := 16 * p.contentLength + Unhex(c);
    SizeDigit(p, c);
    HexGrows(v, rest);
    Turn(p, digits);
    if v <= ULLONG_MAX - 16 {
      var q := p.(contentLength := v);
      OneByte(p, c);
      if rest == "" {
        assert digits == [c];
      } else {
        SizeDigits(q, rest);
        if HexFrom(v, rest) <= ULLONG_MAX - 16 {
          LeadsSilently(p, [c], "", [], q, rest, q.(contentLength := HexFrom(v, rest)));
        }
      }
    }
  }

  // ----- chunks -----

  /** A chunk as it is sent: its size in hexadecimal, an extension, and its data. */
  datatype Chunk = Chunk(size: string, extension: string, data: string)
  {
    predicate WellFormed() {
      IsSize(size, |data|) && IsExtension(extension) && 0 < |data| <= ULLONG_MAX - 16
    }

    function Text(): string { size + extension + "\r\n" + data + "\r\n" }
  }

  predicate IsSize(size: string, n: nat) { size != "" && AllHex(size) && HexFrom(0, size) == n }

  predicate IsExtension(s: string) { s == "" || ((s[0] == ';' || s[0] == ' ') && CR !in s) }

  /** The chunks with a size of `n` in hexadecimal, up to the line feed. */
  lemma {:induction false} SizeLine(p: Parser, size: string, extension: string, n: nat)
    requires Valid(p) && p.state == AtChunk(SizeStart) && IsSize(size, n) && n <= ULLONG_MAX - 16 &&
      IsExtension(extension)
    ensures Leads(p, size + extension + [CR], "", [], p.(contentLength := n, state := AtChunk(SizeAlmostDone)))
  {
    hide Run, Leads;
    assert AllHex(size[1..]) && IsHex(size[0]);
    var c := size[0];
    var q := p.(contentLength := Unhex(c), state := AtChunk(Size));
    var r := p.(contentLength := n, state := AtChunk(Size));
    assert size == [c] + size[1..];
    StartsSize(p, c);
    assert HexFrom(Unhex(c), size[1..]) == HexFrom(0, size) == n;
    if size[1..] == "" {
      assert size == [c] && HexFrom(Unhex(c), "") == Unhex(c) && q == r;
    } else {
      SizeDigits(q, size[1..]);
      assert q.(contentLength := n) == r;
      LeadsSilently(p, [c], "", [], q, size[1..], r);
    }
    ExtensionLine(r, extension);
    assert p.(contentLength := n, state := AtChunk(SizeAlmostDone)) == r.(state := AtChunk(SizeAlmostDone));
    LeadsSilently(p, size, "", [], r, extension + [CR], r.(state := AtChunk(SizeAlmostDone)));
    assert size + (extension + [CR]) == size + extension + [CR];
  }

  lemma {:induction false} StartsSize(p: Parser, c: char)
    requires Valid(p) && p.state == AtChunk(SizeStart) && IsHex(c)
    ensures 0 <= Unhex(c) < 16 && Leads(p, [c], "", [], p.(contentLength := Unhex(c), state := AtChunk(Size)))
  {
    hide Run;
    OneByte(p, c);
  }

  lemma {:induction false} ExtensionLine(p: Parser, extension: string)
    requires Valid(p) && p.state == AtChunk(Size) && IsExtension(extension)
    ensures Leads(p, extension + [CR], "", [], p.(state := AtChunk(SizeAlmostDone)))
  {
    hide Run;
    var r := p.(state := AtChunk(SizeAlmostDone));
    if extension == "" {
      OneByte(p, CR);
      assert extension + [CR] == [CR];
    } else {
      var c, q := extension[0], p.(state := AtChunk(Parameters));
      OneByte(p, c);
      Skipped(q, extension[1..]);
      assert extension == [c] + extension[1..];
      LeadsSilently(p, [c], "", [], q, extension[1..], q);
      OneByte(q, CR);
      LeadsSilently(p, extension, "", [], q, [CR], r);
    }
  }

  lemma {:induction false} Skipped(p: Parser, s: string)
    requires Valid(p) && p.state == AtChunk(Parameters) && CR !in s
    ensures Leads(p, s, "", [], p)
    decreases |s|
  {
    hide Run;
    if s == "" {
      Nowhere(p);
    } else {
      OneByte(p, s[0]);
      Skipped(p, s[1..]);
      LeadsSilently(p, [s[0]], "", [], p, s[1..], p);
      assert [s[0]] + s[1..] == s;
    }
  }

  lemma {:induction false} ChunkLead(p: Parser, c: Chunk)
    requires Valid(p) && p.state == AtChunk(SizeStart) && c.WellFormed()
    ensures Leads(p, c.Text(), c.data, [], p.(contentLength := 0))
  {
    hide Run, Leads;
    var n := |c.data|;
    var q := p.(contentLength := n, state := AtChunk(SizeAlmostDone));
    var head := c.size + c.extension + [CR];
    SizeLine(p, c.size, c.extension, n);
    BeginsData(q);
    LeadsSilently(p, head, "", [], q, [LF], q.(state := InChunk));
    ChunkData(q.(state := InChunk), c.data);
    LeadsAfter(p, head + [LF], q.(state := InChunk), c.data + [CR, LF], c.data, [], p.(contentLength := 0));
    assert head + [LF] + (c.data + [CR, LF]) == c.Text();
  }

  lemma {:induction false} BeginsData(p: Parser)
    requires Valid(p) && p.state == AtChunk(SizeAlmostDone) && p.contentLength > 0
    ensures Leads(p, [LF], "", [], p.(state := InChunk))
  {
    hide Run;
    OneByte(p, LF);
  }

  lemma {:induction false} ChunkData(p: Parser, data: string)
    requires Valid(p) && p.state == InChunk && p.contentLength == |data|
    ensures Leads(p, data + [CR, LF], data, [], p.(contentLength := 0, state := AtChunk(SizeStart)))
  {
    hide Run;
    var q := p.(contentLength := 0, state := AtChunk(DataAlmostDone));
    var r := q.(state := AtChunk(DataDone));
    ManyBytes(p, data);
    OneByte(q, CR);
    OneByte(r, LF);
    hide Leads, Step;
    LeadsSilently(p, data, data, [], q, [CR], r);
    LeadsSilently(p, data + [CR], data, [], r, [LF], q.(state := AtChunk(SizeStart)));
    assert data + [CR] + [LF] == data + [CR, LF];
  }

  function Texts(chunks: seq<Chunk>): string { if chunks == [] then "" else chunks[0].Text() + Texts(chunks[1..]) }

  function AllData(chunks: seq<Chunk>): string { if chunks == [] then "" else chunks[0].data + AllData(chunks[1..]) }

  predicate AllWellFormed(chunks: seq<Chunk>) { forall i :: 0 <= i < |chunks| ==> chunks[i].WellFormed() }

  lemma {:induction false} ChunksLead(p: Parser, chunks: seq<Chunk>)
    requires Valid(p) && p.state == AtChunk(SizeStart) && AllWellFormed(chunks)
    ensures exists n :: 0 <= n <= ULLONG_MAX && Leads(p, Texts(chunks), AllData(chunks), [], p.(contentLength := n))
    decreases |chunks|
  {
    hide Run, Leads;
    if chunks == [] {
      assert p.(contentLength := p.contentLength) == p;
      Nowhere(p);
    } else {
      var q := p.(contentLength := 0);
      ChunkLead(p, chunks[0]);
      ChunksLead(q, chunks[1..]);
      var n :| 0 <= n <= ULLONG_MAX && Leads(q, Texts(chunks[1..]), AllData(chunks[1..]), [], q.(contentLength := n));
      LeadsOn(p, chunks[0].Text(), chunks[0].data, [], q, Texts(chunks[1..]), AllData(chunks[1..]), [],
        q.(contentLength := n));
      var none: seq<Event> := [];
      assert p.(contentLength := n) == q.(contentLength := n) && none + none == none;
    }
  }
}
