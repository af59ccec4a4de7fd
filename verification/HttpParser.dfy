/** http_parser_execute, over whole buffers: marks say where the field that goes on
    started in the buffer, and inner loops take many bytes at once. What it leaves and
    calls back is what the byte-by-byte run of HttpRuns does. */
module HttpParser {
  import opened HttpChars
  import opened HttpSteps
  import opened HttpRuns

  const W32: nat := 0x1_0000_0000

  /** The marks of http_parser_execute; -1 for none. */
  datatype Marks = Marks(url: int, status: int, field: int, value: int, body: int)
  {
    function Of(f: Field): int {
      match f
      case OnUrl => url
      case OnStatus => status
      case OnHeaderField => field
      case OnHeaderValue => value
      case OnBody => body
    }

    function With(f: Field, n: int): Marks {
      match f
      case OnUrl => this.(url := n)
      case OnStatus => this.(status := n)
      case OnHeaderField => this.(field := n)
      case OnHeaderValue => this.(value := n)
      case OnBody => this.(body := n)
    }

    /** MARK */
    function Mark(f: Field, n: nat): Marks { if Of(f) < 0 then With(f, n) else this }

    /** How many marks are set. */
    function Count(): nat {
      (if url >= 0 then 1 else 0) + (if status >= 0 then 1 else 0) + (if field >= 0 then 1 else 0) +
      (if value >= 0 then 1 else 0) + (if body >= 0 then 1 else 0)
    }

    /** A mark is set exactly in the state of its field, or, for the body, only there and
        until the end of its chunk is seen. */
    predicate Fit(s: State, n: nat) {
      (url >= 0 <==> FieldOf(s) == Some(OnUrl)) && (status >= 0 <==> FieldOf(s) == Some(OnStatus)) &&
      (field >= 0 <==> FieldOf(s) == Some(OnHeaderField)) && (value >= 0 <==> FieldOf(s) == Some(OnHeaderValue)) &&
      (body >= 0 ==> BodyState(s) || s == AtChunk(DataAlmostDone)) &&
      url <= n && status <= n && field <= n && value <= n && body <= n
    }
  }

  const NO_MARKS := Marks(-1, -1, -1, -1, -1)

  /** The marks with which a buffer starts. */
  function StartMarks(s: State): Marks { if FieldOf(s).Some? then NO_MARKS.With(FieldOf(s).field, 0) else NO_MARKS }

  /** CALLBACK_DATA with the bytes up to `n`: nothing if the mark is not set. */
  function Deliver(m: Marks, f: Field, data: string, n: nat): seq<Event>
    requires n <= |data| && m.Of(f) <= n
  {
    if m.Of(f) < 0 then [] else [Data(f, data[m.Of(f)..n])]
  }

  /** The state of http_parser_execute: the next byte, the parser, the marks, and the
      callbacks made. */
  datatype Exec = Exec(n: nat, p: Parser, m: Marks, out: seq<Event>)
  {
    /** The callbacks, joined to those before, with the data that is still to be
        delivered. */
    function Flushed(acc: seq<Event>, data: string): seq<Event>
      requires n <= |data| && m.Fit(p.state, n)
    {
      var k := Feed(acc, out);
      if FieldOf(p.state).Some? then Add(k, Data(FieldOf(p.state).field, data[m.Of(FieldOf(p.state).field)..n]))
      else if m.body >= 0 then Add(k, Data(OnBody, data[m.body..n]))
      else k
    }

    /** So far, the run from `p0` over the buffer has gone through `done`, and goes on as
        this parser does from here. */
    ghost predicate Follows(p0: Parser, data: string, acc: seq<Event>, done: seq<Event>) {
      n <= |data| && Valid(p0) && Valid(p) && m.Fit(p.state, n) &&
      var o, r := Run(p0, data), Run(p, data[n..]);
      o.ending == r.ending && o.used == n + r.used && (o.ending.Refused? || o == r.After(n, done)) &&
      Flushed(acc, data) == Feed(acc, done) && Fits(Feed(acc, done), p.state)
    }
  }

  lemma {:induction false} Starts(p: Parser, data: string, acc: seq<Event>)
    requires Valid(p) && Fits(acc, p.state)
    ensures Exec(0, p, StartMarks(p.state), []).Follows(p, data, acc, [])
  {
    hide Run;
    assert data[0..] == data && data[0..0] == "";
    var r := Run(p, data);
    assert [] + r.events == r.events;
    if FieldOf(p.state).Some? { AddNothing(acc, FieldOf(p.state).field); }
  }

  /** At most one mark is set. */
  lemma {:induction false} OneMark(m: Marks, s: State, n: nat)
    requires m.Fit(s, n)
    ensures m.Count() <= 1
  {
  }

  /** At the end of the buffer the last field is delivered. */
  lemma {:induction false} Ends(x: Exec, p0: Parser, data: string, acc: seq<Event>, done: seq<Event>)
    requires x.Follows(p0, data, acc, done) && x.n == |data|
    ensures var o := Run(p0, data);
      o.ending == Through && o.used == |data| && o.p == x.p && o.events == done
    ensures var m := x.m;
      var out := x.out + Deliver(m, OnHeaderField, data, x.n) + Deliver(m, OnHeaderValue, data, x.n) +
                 Deliver(m, OnUrl, data, x.n) + Deliver(m, OnBody, data, x.n) + Deliver(m, OnStatus, data, x.n);
      Feed(acc, out) == Feed(acc, done)
  {
    hide Run;
    assert data[x.n..] == [];
    RunNothing(x.p);
    assert done + [] == done;
    var m := x.m;
    var f := if FieldOf(x.p.state).Some? then FieldOf(x.p.state).field else OnBody;
    var out := x.out + Deliver(m, OnHeaderField, data, x.n) + Deliver(m, OnHeaderValue, data, x.n) +
               Deliver(m, OnUrl, data, x.n) + Deliver(m, OnBody, data, x.n) + Deliver(m, OnStatus, data, x.n);
    assert out == x.out + Deliver(m, f, data, x.n);
    FeedAppend(acc, x.out, Deliver(m, f, data, x.n));
    if m.Of(f) >= 0 { FeedOne(Feed(acc, x.out), Data(f, data[m.Of(f)..x.n])); }
  }

  // ----- turns -----

  lemma {:induction false} RestOf(data: string, n: nat)
    requires n < |data|
    ensures data[n..] != [] && data[n..][0] == data[n] && data[n..][1..] == data[n + 1..]
  {
  }

  /** The run goes on after a turn. */
  ghost predicate GoesOn(p0: Parser, data: string, done: seq<Event>, n: nat, p: Parser) {
    n <= |data| && Valid(p0) && Valid(p) &&
    var o, r := Run(p0, data), Run(p, data[n..]);
    o.ending == r.ending && o.used == n + r.used && (o.ending.Refused? || o == r.After(n, done))
  }

  lemma {:induction false} TurnGoesOn(p0: Parser, data: string, done: seq<Event>, n: nat, p: Parser)
    requires GoesOn(p0, data, done, n, p) && n < |data|
    ensures var e, o := Step(p, data[n]), Run(p0, data);
      if e.Error? then o.ending == Refused(e.errno) && o.used == n
      else if e.stop then o == Outcome(e.p, done + e.events, n + 1, Upgraded)
      else GoesOn(p0, data, done + e.events, if e.again then n else n + 1, e.p)
  {
    hide Run;
    RestOf(data, n);
    Turn(p, data[n..]);
    var e := Step(p, data[n]);
    if e.Effect? && !e.stop {
      var n' := if e.again then n else n + 1;
      var r := Run(e.p, data[n'..]);
      assert done + (e.events + r.events) == done + e.events + r.events;
    }
  }

  /** The marks and callbacks of a turn outside of the body. */
  function Turned(x: Exec, e: Effect, data: string): Exec
    requires x.n < |data| && x.m.Fit(x.p.state, x.n) && e.Effect?
  {
    var f, g := FieldOf(x.p.state), FieldOf(e.p.state);
    var n := if e.again then x.n else x.n + 1;
    if g.Some? then Exec(n, e.p, x.m.Mark(g.field, x.n), x.out)
    else if f.Some? then Exec(n, e.p, x.m.With(f.field, -1), x.out + Deliver(x.m, f.field, data, x.n))
    else if x.p.state == AtChunk(DataAlmostDone) then
      Exec(n, e.p, x.m.With(OnBody, -1), x.out + Deliver(x.m, OnBody, data, x.n) + e.events)
    else Exec(n, e.p, x.m, x.out + e.events)
  }

  lemma {:induction false} TurnedFit(x: Exec, e: Effect, data: string)
    requires x.n < |data| && x.m.Fit(x.p.state, x.n) && !BodyState(x.p.state) && e.Effect?
    requires Orderly(x.p.state, data[x.n], e) && (BodyState(e.p.state) ==> FieldOf(x.p.state) == None)
    requires x.p.state == AtChunk(DataAlmostDone) ==> FieldOf(e.p.state) == None
    ensures var y := Turned(x, e, data); y.m.Fit(y.p.state, y.n)
  {
  }

  /** The byte of a field joins the data that is still to be delivered. */
  lemma {:induction false} FieldFlushed(x: Exec, e: Effect, data: string, acc: seq<Event>)
    requires x.n < |data| && x.m.Fit(x.p.state, x.n) && !BodyState(x.p.state) && e.Effect?
    requires Orderly(x.p.state, data[x.n], e) && FieldOf(e.p.state).Some?
    requires x.p.state != AtChunk(DataAlmostDone)
    ensures var y := Turned(x, e, data);
      y.m.Fit(y.p.state, y.n) && y.Flushed(acc, data) == Feed(x.Flushed(acc, data), e.events)
  {
    TurnedFit(x, e, data);
    var f := FieldOf(e.p.state).field;
    var y, k, c := Turned(x, e, data), Feed(acc, x.out), data[x.n];
    FeedOne(x.Flushed(acc, data), Data(f, [c]));
    if FieldOf(x.p.state).Some? {
      var i := x.m.Of(f);
      AddTwice(k, f, data[i..x.n], [c]);
      assert data[i..x.n] + [c] == data[i..x.n + 1];
    } else {
      assert data[x.n..x.n + 1] == [c];
    }
  }

  lemma {:induction false} OtherFlushed(x: Exec, e: Effect, data: string, acc: seq<Event>)
    requires x.n < |data| && x.m.Fit(x.p.state, x.n) && !BodyState(x.p.state) && e.Effect?
    requires Orderly(x.p.state, data[x.n], e) && FieldOf(e.p.state) == None
    requires BodyState(e.p.state) ==> FieldOf(x.p.state) == None
    requires x.p.state == AtChunk(DataAlmostDone) ==> e.events == []
    requires x.p.state != AtChunk(DataAlmostDone) ==> x.m.body < 0
    ensures var y := Turned(x, e, data);
      y.m.Fit(y.p.state, y.n) && y.Flushed(acc, data) == Feed(x.Flushed(acc, data), e.events)
  {
    TurnedFit(x, e, data);
    var f := FieldOf(x.p.state);
    var y := Turned(x, e, data);
    if f.Some? {
      FeedAppend(acc, x.out, Deliver(x.m, f.field, data, x.n));
      FeedOne(Feed(acc, x.out), Data(f.field, data[x.m.Of(f.field)..x.n]));
    } else if x.p.state == AtChunk(DataAlmostDone) {
      assert y.out == x.out + Deliver(x.m, OnBody, data, x.n);
      FeedAppend(acc, x.out, Deliver(x.m, OnBody, data, x.n));
      if x.m.body >= 0 { FeedOne(Feed(acc, x.out), Data(OnBody, data[x.m.body..x.n])); }
    } else {
      FeedAppend(acc, x.out, e.events);
    }
  }

  /** After a turn outside of the body the run is still followed. */
  lemma {:induction false} TurnFollows(x: Exec, p0: Parser, data: string, acc: seq<Event>, done: seq<Event>)
    requires x.Follows(p0, data, acc, done) && x.n < |data| && !BodyState(x.p.state)
    ensures var e, o := Step(x.p, data[x.n]), Run(p0, data);
      if e.Error? then o.ending == Refused(e.errno) && o.used == x.n
      else if e.stop then
        o == Outcome(e.p, done + e.events, x.n + 1, Upgraded) &&
        Feed(acc, x.out + e.events) == Feed(acc, o.events) && Fits(Feed(acc, o.events), e.p.state)
      else Turned(x, e, data).Follows(p0, data, acc, done + e.events)
  {
    hide Run;
    var c := data[x.n];
    var e := Step(x.p, c);
    TurnGoesOn(p0, data, done, x.n, x.p);
    StepSound(x.p, c);
    if e.Effect? {
      StepFits(Feed(acc, done), x.p, c);
      FeedAppend(acc, done, e.events);
      if e.stop {
        FeedAppend(acc, x.out, e.events);
      } else {
        ChunkEnds(x.p, c);
        if FieldOf(e.p.state).Some? { FieldFlushed(x, e, data, acc); } else { OtherFlushed(x, e, data, acc); }
      }
    }
  }

  /** The turn after the data of a chunk makes no callback of its own; the body starts
      outside of fields. */
  lemma {:induction false} ChunkEnds(p: Parser, c: char)
    requires Valid(p) && Step(p, c).Effect? && !BodyState(p.state)
    ensures p.state == AtChunk(DataAlmostDone) ==> Step(p, c).events == [] && FieldOf(Step(p, c).p.state) == None
    ensures BodyState(Step(p, c).p.state) ==> FieldOf(p.state) == None
  {
  }

  // ----- bodies -----

  lemma {:induction false} BodyByte(p: Parser, c: char)
    requires Valid(p) && BodyState(p.state) && (p.state.InBody? ==> p.contentLength > 1)
    ensures var e := Step(p, c); e.Effect? && !e.again && !e.stop && e.events == [Data(OnBody, [c])]
    ensures Step(p, c).p == Shorter(p, 1)
  {
  }

  /** The parser after `k` bytes of the body. */
  function Shorter(p: Parser, k: nat): Parser {
    if p.state.InBodyToEof? || k == 0 then p
    else
      var q := p.(contentLength := if p.contentLength >= k then p.contentLength - k else 0);
      if p.state.InChunk? && q.contentLength == 0 then q.(state := AtChunk(DataAlmostDone)) else q
  }

  /** Many bytes of the body at once: fewer than are left of an identity body, so that
      the message does not end. */
  lemma {:induction false} BodyGoesOn(p0: Parser, data: string, done: seq<Event>, n: nat, p: Parser, k: nat)
    requires GoesOn(p0, data, done, n, p) && n + k <= |data| && BodyState(p.state)
    requires (p.state.InBody? ==> k < p.contentLength) && (p.state.InChunk? ==> k <= p.contentLength)
    ensures GoesOn(p0, data, done + Singles(OnBody, data[n..n + k]), n + k, Shorter(p, k))
    decreases k
  {
    hide Run;
    if k == 0 {
      assert data[n..n] == [] && done + [] == done;
    } else {
      BodyByte(p, data[n]);
      TurnGoesOn(p0, data, done, n, p);
      var e := Step(p, data[n]);
      var bytes := data[n..n + k];
      assert bytes[..1] == [data[n]] && bytes[1..] == data[n + 1..n + k];
      var rest := Singles(OnBody, bytes[1..]);
      assert Singles(OnBody, bytes) == e.events + rest;
      assert done + e.events + rest == done + (e.events + rest);
      if k > 1 {
        BodyGoesOn(p0, data, done + e.events, n + 1, e.p, k - 1);
      } else {
        assert rest == [] && done + e.events + [] == done + e.events;
      }
    }
  }

  lemma {:induction false} SinglesFlushed(x: Exec, data: string, acc: seq<Event>, f: Field, k: nat, p: Parser)
    requires x.n + k <= |data| && k > 0 && x.m.Fit(x.p.state, x.n)
    requires FieldOf(x.p.state) == FieldOf(p.state) == (if f == OnBody then None else Some(f))
    requires x.m.Mark(f, x.n).Fit(p.state, x.n + k)
    ensures var y := Exec(x.n + k, p, x.m.Mark(f, x.n), x.out);
      y.Flushed(acc, data) == Feed(x.Flushed(acc, data), Singles(f, data[x.n..x.n + k]))
  {
    var bytes, i := data[x.n..x.n + k], x.m.Of(f);
    FeedSingles(x.Flushed(acc, data), f, bytes);
    if i >= 0 {
      AddTwice(Feed(acc, x.out), f, data[i..x.n], bytes);
      assert data[i..x.n] + bytes == data[i..x.n + k];
    }
  }

  lemma {:induction false} FitsSingles(acc: seq<Event>, f: Field, bytes: string, s: State)
    requires Fits(acc, s) && bytes != [] && (FieldOf(s) == None || FieldOf(s) == Some(f))
    ensures Fits(Feed(acc, Singles(f, bytes)), s)
  {
    FeedSingles(acc, f, bytes);
  }

  /** Many bytes of the body at once. */
  lemma {:induction false} BodyFollows(x: Exec, p0: Parser, data: string, acc: seq<Event>, done: seq<Event>, k: nat)
    requires x.Follows(p0, data, acc, done) && BodyState(x.p.state) && 0 < k && x.n + k <= |data|
    requires (x.p.state.InBody? ==> k < x.p.contentLength) && (x.p.state.InChunk? ==> k <= x.p.contentLength)
    ensures Exec(x.n + k, Shorter(x.p, k), x.m.Mark(OnBody, x.n), x.out).Follows(
      p0, data, acc, done + Singles(OnBody, data[x.n..x.n + k]))
  {
    hide Run;
    BodyGoesOn(p0, data, done, x.n, x.p, k);
    BodyFlushed(x, data, acc, done, k);
  }

  lemma {:induction false} BodyFlushed(x: Exec, data: string, acc: seq<Event>, done: seq<Event>, k: nat)
    requires x.n + k <= |data| && Valid(x.p) && x.m.Fit(x.p.state, x.n) && BodyState(x.p.state) && 0 < k
    requires (x.p.state.InBody? ==> k < x.p.contentLength) && (x.p.state.InChunk? ==> k <= x.p.contentLength)
    requires x.Flushed(acc, data) == Feed(acc, done)
    ensures var y := Exec(x.n + k, Shorter(x.p, k), x.m.Mark(OnBody, x.n), x.out);
      y.m.Fit(y.p.state, y.n) && FieldOf(y.p.state) == None &&
      y.Flushed(acc, data) == Feed(acc, done + Singles(OnBody, data[x.n..x.n + k]))
  {
    ShorterIs(x, k);
    SinglesFlushed(x, data, acc, OnBody, k, Shorter(x.p, k));
    FeedAppend(acc, done, Singles(OnBody, data[x.n..x.n + k]));
  }

  lemma {:induction false} ShorterIs(x: Exec, k: nat)
    requires Valid(x.p) && x.m.Fit(x.p.state, x.n) && BodyState(x.p.state) && 0 < k
    requires (x.p.state.InBody? ==> k < x.p.contentLength) && (x.p.state.InChunk? ==> k <= x.p.contentLength)
    ensures var p := Shorter(x.p, k);
      FieldOf(x.p.state) == FieldOf(p.state) == None && Valid(p) && x.m.Mark(OnBody, x.n).Fit(p.state, x.n + k)
  {
  }

  /** The last byte of an identity body is delivered at once, and looked at again. */
  lemma {:induction false} BodyEndFollows(x: Exec, p0: Parser, data: string, acc: seq<Event>, done: seq<Event>)
    requires x.Follows(p0, data, acc, done) && x.p.state.InBody? && x.p.contentLength == 1 && x.n < |data|
    ensures var m, p := x.m.Mark(OnBody, x.n), x.p.(contentLength := 0, state := At(MessageDone));
      Exec(x.n, p, m.With(OnBody, -1), x.out + Deliver(m, OnBody, data, x.n + 1)).Follows(
        p0, data, acc, done + [Data(OnBody, [data[x.n]])])
  {
    hide Run;
    var c := data[x.n];
    TurnGoesOn(p0, data, done, x.n, x.p);
    BodyEndFlushed(x, data, acc);
    FeedAppend(acc, done, [Data(OnBody, [c])]);
  }

  lemma {:induction false} BodyEndFlushed(x: Exec, data: string, acc: seq<Event>)
    requires x.n < |data| && x.m.Fit(x.p.state, x.n) && x.p.state.InBody?
    ensures var m := x.m.Mark(OnBody, x.n);
      m.body <= x.n + 1 && m.With(OnBody, -1).Fit(At(MessageDone), x.n) &&
      Feed(acc, x.out + Deliver(m, OnBody, data, x.n + 1)) == Feed(x.Flushed(acc, data), [Data(OnBody, [data[x.n]])])
  {
    var m, c := x.m.Mark(OnBody, x.n), data[x.n];
    FeedAppend(acc, x.out, Deliver(m, OnBody, data, x.n + 1));
    FeedOne(Feed(acc, x.out), Data(OnBody, data[m.body..x.n + 1]));
    FeedOne(x.Flushed(acc, data), Data(OnBody, [c]));
    if x.m.body >= 0 {
      AddTwice(Feed(acc, x.out), OnBody, data[x.m.body..x.n], [c]);
      assert data[x.m.body..x.n] + [c] == data[x.m.body..x.n + 1];
    } else {
      assert data[x.n..x.n + 1] == [c];
    }
  }

  // ----- header values of no interest -----

  predicate InLine(bytes: string) { CR !in bytes && LF !in bytes }

  /** In a header value that nothing is looked for in, bytes up to the end of the line
      leave the parser as it is. */
  lemma {:induction false} ValueGoesOn(p0: Parser, data: string, done: seq<Event>, n: nat, p: Parser, k: nat)
    requires GoesOn(p0, data, done, n, p) && n + k <= |data| && p.state.InValue? && p.headerState.General?
    requires InLine(data[n..n + k])
    ensures GoesOn(p0, data, done + Singles(OnHeaderValue, data[n..n + k]), n + k, p)
    decreases k
  {
    hide Run;
    if k == 0 {
      assert data[n..n] == [] && done + [] == done;
    } else {
      var bytes := data[n..n + k];
      assert data[n] == bytes[0] && data[n] != CR && data[n] != LF;
      TurnGoesOn(p0, data, done, n, p);
      var e := Step(p, data[n]);
      assert e == Effect(p, [Data(OnHeaderValue, [data[n]])], false, false);
      assert bytes[..1] == [data[n]] && bytes[1..] == data[n + 1..n + k];
      var rest := Singles(OnHeaderValue, bytes[1..]);
      assert Singles(OnHeaderValue, bytes) == e.events + rest;
      assert done + e.events + rest == done + (e.events + rest);
      ValueGoesOn(p0, data, done + e.events, n + 1, p, k - 1);
    }
  }

  lemma {:induction false} ValueFollows(x: Exec, p0: Parser, data: string, acc: seq<Event>, done: seq<Event>, k: nat)
    requires x.Follows(p0, data, acc, done) && x.p.state.InValue? && x.p.headerState.General?
    requires 0 < k && x.n + k <= |data| && InLine(data[x.n..x.n + k])
    ensures Exec(x.n + k, x.p, x.m, x.out).Follows(
      p0, data, acc, done + Singles(OnHeaderValue, data[x.n..x.n + k]))
  {
    hide Run;
    var singles := Singles(OnHeaderValue, data[x.n..x.n + k]);
    ValueGoesOn(p0, data, done, x.n, x.p, k);
    SinglesFlushed(x, data, acc, OnHeaderValue, k, x.p);
    FeedAppend(acc, done, singles);
    FitsSingles(Feed(acc, done), OnHeaderValue, data[x.n..x.n + k], x.p.state);
  }

  // ----- turns in the loops -----

  /** A character of a field name. */
  lemma {:induction false} NameCharFollows(x: Exec, p0: Parser, data: string, acc: seq<Event>, done: seq<Event>)
    requires x.Follows(p0, data, acc, done) && x.n < |data| && x.p.state.InField? && IsToken(data[x.n])
    ensures var h := FieldChar(x.p.headerState, x.p.index, data[x.n]);
      Exec(x.n + 1, x.p.(headerState := h.0, index := h.1), x.m, x.out).Follows(
        p0, data, acc, done + [Data(OnHeaderField, [data[x.n]])])
  {
    hide Run;
    TurnFollows(x, p0, data, acc, done);
  }

  /** The character after a field name. */
  lemma {:induction false} NameEndFollows(x: Exec, p0: Parser, data: string, acc: seq<Event>, done: seq<Event>)
    requires x.Follows(p0, data, acc, done) && x.n < |data| && x.p.state.InField? && !IsToken(data[x.n])
    ensures x.m.Of(OnHeaderField) <= x.n
    ensures if data[x.n] == ':' then
        Exec(x.n + 1, x.p.(state := At(ValueDiscardWs)), x.m.With(OnHeaderField, -1),
             x.out + Deliver(x.m, OnHeaderField, data, x.n)).Follows(p0, data, acc, done)
      else Run(p0, data).ending == Refused(INVALID_HEADER_TOKEN) && Run(p0, data).used == x.n
  {
    hide Run;
    TurnFollows(x, p0, data, acc, done);
    assert done + [] == done;
  }

  /** A character of a header value. */
  lemma {:induction false} ValueCharFollows(x: Exec, p0: Parser, data: string, acc: seq<Event>, done: seq<Event>)
    requires x.Follows(p0, data, acc, done) && x.n < |data| && x.p.state.InValue? && InLine([data[x.n]])
    ensures var e := ValueChar(x.p, data[x.n]);
      if e.Error? then e.errno != OK && Run(p0, data).ending == Refused(e.errno) && Run(p0, data).used == x.n
      else
        e.p.state.InValue? &&
        Exec(x.n + 1, e.p, x.m, x.out).Follows(p0, data, acc, done + [Data(OnHeaderValue, [data[x.n]])])
  {
    hide Run;
    assert [data[x.n]][0] == data[x.n];
    StepSound(x.p, data[x.n]);
    TurnFollows(x, p0, data, acc, done);
  }

  lemma {:induction false} ValueEndStep(p: Parser, c: char)
    requires p.state.InValue? && (c == CR || c == LF)
    ensures Step(p, c) == Effect(p.(state := At(HeaderAlmostDone)), [], c == LF, false)
  {
  }

  /** The end of the line ends a header value; a line feed is looked at again. */
  lemma {:induction false} ValueEndFollows(x: Exec, p0: Parser, data: string, acc: seq<Event>, done: seq<Event>)
    requires x.Follows(p0, data, acc, done) && x.n < |data| && x.p.state.InValue?
    requires data[x.n] == CR || data[x.n] == LF
    ensures x.m.Of(OnHeaderValue) <= x.n && Rank(At(HeaderAlmostDone)) < Rank(x.p.state)
    ensures Exec(if data[x.n] == CR then x.n + 1 else x.n, x.p.(state := At(HeaderAlmostDone)),
                 x.m.With(OnHeaderValue, -1), x.out + Deliver(x.m, OnHeaderValue, data, x.n)).Follows(p0, data, acc,
                 done)
  {
    hide Run, Step, Feed, Valid;
    ValueEndStep(x.p, data[x.n]);
    TurnFollows(x, p0, data, acc, done);
    assert done + [] == done;
  }

  /** As much of a chunk as is in the buffer. */
  lemma {:induction false} ChunkTurnFollows(x: Exec, p0: Parser, data: string, acc: seq<Event>, done: seq<Event>,
                                            k: nat)
    requires x.Follows(p0, data, acc, done) && x.n < |data| && x.p.state.InChunk?
    requires k == if x.p.contentLength < |data| - x.n then x.p.contentLength else |data| - x.n
    ensures 0 < k && Counted(x.p)
    ensures var q := x.p.(contentLength := x.p.contentLength - k);
      Exec(x.n + k, if q.contentLength == 0 then q.(state := AtChunk(DataAlmostDone)) else q,
           x.m.Mark(OnBody, x.n), x.out).Follows(p0, data, acc, done + Singles(OnBody, data[x.n..x.n + k]))
  {
    hide Run;
    BodyFollows(x, p0, data, acc, done, k);
  }

  /** Part of an identity body is in the buffer. */
  lemma {:induction false} PartFollows(x: Exec, p0: Parser, data: string, acc: seq<Event>, done: seq<Event>, k: nat)
    requires x.Follows(p0, data, acc, done) && x.n < |data| && x.p.state.InBody?
    requires 0 < k < x.p.contentLength && x.n + k <= |data|
    ensures Exec(x.n + k, x.p.(contentLength := x.p.contentLength - k), x.m.Mark(OnBody, x.n), x.out).Follows(
      p0, data, acc, done + Singles(OnBody, data[x.n..x.n + k]))
  {
    hide Run;
    BodyFollows(x, p0, data, acc, done, k);
  }

  /** All that is left of an identity body is in the buffer. */
  lemma {:induction false} AllFollows(x: Exec, p0: Parser, data: string, acc: seq<Event>, done: seq<Event>)
    returns (done': seq<Event>)
    requires x.Follows(p0, data, acc, done) && x.p.state.InBody? && x.n + x.p.contentLength <= |data|
    ensures Counted(x.p) && x.p.contentLength > 0 && Rank(At(MessageDone)) < Rank(x.p.state)
    ensures var m, k := x.m.Mark(OnBody, x.n), x.p.contentLength;
      m.Of(OnBody) <= x.n &&
      Exec(x.n + k - 1, x.p.(contentLength := 0, state := At(MessageDone)), m.With(OnBody, -1),
           x.out + Deliver(m, OnBody, data, x.n + k)).Follows(p0, data, acc, done')
  {
    hide Run, Exec.Follows, Feed, Singles;
    var k := x.p.contentLength;
    FollowsMeans(x, p0, data, acc, done);
    if k > 1 {
      PartFollows(x, p0, data, acc, done, k - 1);
      var y := Exec(x.n + k - 1, x.p.(contentLength := 1), x.m.Mark(OnBody, x.n), x.out);
      done' := done + Singles(OnBody, data[x.n..x.n + k - 1]);
      BodyEndFollows(y, p0, data, acc, done');
      done' := done' + [Data(OnBody, [data[x.n + k - 1]])];
    } else {
      BodyEndFollows(x, p0, data, acc, done);
      done' := done + [Data(OnBody, [data[x.n]])];
    }
  }

  /** A body that ends with the connection is all that is in the buffer. */
  lemma {:induction false} RestFollows(x: Exec, p0: Parser, data: string, acc: seq<Event>, done: seq<Event>)
    requires x.Follows(p0, data, acc, done) && x.p.state.InBodyToEof? && x.n < |data|
    ensures Exec(|data|, x.p, x.m.Mark(OnBody, x.n), x.out).Follows(
      p0, data, acc, done + Singles(OnBody, data[x.n..|data|]))
  {
    hide Run;
    BodyFollows(x, p0, data, acc, done, |data| - x.n);
  }

  lemma {:induction false} FollowsMeans(x: Exec, p0: Parser, data: string, acc: seq<Event>, done: seq<Event>)
    requires x.Follows(p0, data, acc, done)
    ensures x.n <= |data| && x.m.Fit(x.p.state, x.n) && Valid(x.p) && (x.p.state.InBody? ==> x.p.contentLength > 0)
  {
    hide Run;
  }

  lemma {:induction false} OneInLine(c: char)
    requires c != CR && c != LF
    ensures InLine([c])
  {
  }

  /** A turn outside of the loops. */
  lemma {:induction false} PlainTurnFollows(x: Exec, p0: Parser, data: string, acc: seq<Event>, done: seq<Event>)
    requires x.Follows(p0, data, acc, done) && x.n < |data| && !BodyState(x.p.state)
    ensures Valid(x.p)
    ensures var e, o := Step(x.p, data[x.n]), Run(p0, data);
      if e.Error? then e.errno != OK && o.ending == Refused(e.errno) && o.used == x.n
      else
        Valid(e.p) && (e.again ==> Rank(e.p.state) < Rank(x.p.state)) &&
        if e.stop then
          o.ending == Upgraded && o.used == x.n + 1 && o.p == e.p &&
          Feed(acc, x.out + e.events) == Feed(acc, o.events) &&
          Fits(Feed(acc, o.events), e.p.state)
        else
          x.m.Fit(x.p.state, x.n) &&
          var y := Turned(x, e, data);
          y.n == (if e.again then x.n else x.n + 1) && y.p == e.p && y.Follows(p0, data, acc, done + e.events)
  {
    hide Run;
    StepSound(x.p, data[x.n]);
    TurnFollows(x, p0, data, acc, done);
  }

  // ----- the parser -----

  /** PARSING_HEADER */
  predicate ParsingHeader(s: State) {
    match s
    case At(place) => !place.MessageDone?
    case AtChunk(chunk) => !chunk.DataAlmostDone? && !chunk.DataDone?
    case InChunk => false
    case InBody => false
    case InBodyToEof => false
    case _ => true
  }

  predicate ResetsCount(s: State) { s == At(HeadersDone) || s == AtChunk(SizeAlmostDone) || s == AtChunk(DataDone) }

  /** A chunk size starts only where the byte count was reset. */
  lemma {:induction false} SizeStartsAfter(p: Parser, c: char)
    requires Valid(p) && Step(p, c).Effect? && Step(p, c).p.state == AtChunk(SizeStart)
    ensures ResetsCount(p.state) && !Step(p, c).again
  {
    if p.state.At? { PlaceSizeStarts(p, p.state.place, c); }
  }

  lemma {:induction false} PlaceSizeStarts(p: Parser, at: Place, c: char)
    requires Valid(p) && p.state == At(at) && PlaceStep(p, at, c).Effect?
    requires PlaceStep(p, at, c).p.state == AtChunk(SizeStart)
    ensures at.HeadersDone? && !PlaceStep(p, at, c).again
  {
    PlaceSound(p, at, c);
    hide Valid, Sound, StartStep, ResponseStep, ValueFirst;
  }

  function Joined(pieces: seq<string>): string {
    if pieces == [] then "" else Joined(pieces[..|pieces| - 1]) + pieces[|pieces| - 1]
  }

  predicate NoneEmpty(pieces: seq<string>) { forall i :: 0 <= i < |pieces| ==> pieces[i] != "" }

  /** Parsing one more piece of the input. */
  lemma {:induction false} NextPiece(p0: Parser, acc: seq<Event>, a: string, outA: seq<Event>, b: string,
                                     outB: seq<Event>)
    requires Valid(p0) && Run(p0, a).ending == Through && Feed(acc, outA) == Feed(acc, Run(p0, a).events)
    ensures var r, o := Run(Run(p0, a).p, b), Run(p0, a + b);
      o.ending == r.ending && o.p == r.p &&
      (Feed(Feed(acc, outA), outB) == Feed(Feed(acc, outA), r.events) ==> Feed(acc, outA + outB) == Feed(acc, o.events))
  {
    hide Run, Feed;
    RunAppend(p0, a, b);
    FeedAppend(acc, outA, outB);
    FeedAppend(acc, Run(p0, a).events, Run(Run(p0, a).p, b).events);
  }

  lemma {:induction false} FeedNothing(acc: seq<Event>)
    ensures Feed(acc, []) == acc
  {
  }

  /** What is behind a piece that is refused makes no difference. */
  lemma {:induction false} Leftover(p0: Parser, pieces: seq<string>, i: nat)
    requires i <= |pieces| && Valid(p0)
    ensures var o := Run(p0, Joined(pieces[..i]));
      o.ending == Through || Run(p0, Joined(pieces)) == o
    ensures i == |pieces| ==> pieces[..i] == pieces
    decreases |pieces| - i
  {
    hide Run;
    if i == |pieces| {
      assert pieces[..i] == pieces;
    } else if Run(p0, Joined(pieces[..i])).ending != Through {
      assert pieces[..i + 1][..i] == pieces[..i];
      RunEnded(p0, Joined(pieces[..i]), pieces[i]);
      Leftover(p0, pieces, i + 1);
    }
  }

  class HttpParser {
    var parser: Parser
    var errno: Errno
    var nread: nat

    ghost predicate Good()
      reads this
    {
      Valid(parser) && (parser.state == AtChunk(SizeStart) ==> nread == 0)
    }

    constructor (kind: Kind)
      ensures Good() && errno == OK && parser == Initial(kind) && Fits([], parser.state)
    {
      parser, errno, nread := Initial(kind), OK, 0;
    }

    /** COUNT_HEADER_SIZE, without a limit; the count is a 32-bit number. */
    method CountHeader(k: int)
      modifies this`nread
      ensures nread == (old(nread) + k) % W32
    {
      nread := (nread + k) % W32;
    }

    /** memchr for CR and LF: where the line ends in the buffer. */
    method LineEnd(data: string, n: nat) returns (e: nat)
      requires n < |data| && data[n] != CR && data[n] != LF
      ensures n < e <= |data| && InLine(data[n..e]) && (e < |data| ==> data[e] == CR || data[e] == LF)
    {
      e := n;
      while e < |data| && data[e] != CR && data[e] != LF
        invariant n <= e <= |data| && (e == n ==> e < |data|) && InLine(data[n..e])
        decreases |data| - e
      {
        assert data[n..e + 1] == data[n..e] + [data[e]];
        e := e + 1;
      }
    }

    /** The state s_header_field: takes all of the field name that is in the buffer. */
    method InFieldTurn(data: string, n0: nat, m0: Marks, out0: seq<Event>, ghost p0: Parser, ghost acc: seq<Event>,
                       ghost done0: seq<Event>)
      returns (n: nat, m: Marks, out: seq<Event>, ghost done: seq<Event>)
      requires Exec(n0, parser, m0, out0).Follows(p0, data, acc, done0) && n0 < |data| && parser.state.InField? &&
        errno == OK
      modifies this
      ensures errno != OK ==> Run(p0, data).ending == Refused(errno) && Run(p0, data).used == n
      ensures errno == OK ==> Exec(n, parser, m, out).Follows(p0, data, acc, done) && n > n0
      ensures !parser.state.AtChunk?
    {
      hide *;
      n, m, out, done := n0, m0, out0, done0;
      while n < |data| && IsToken(data[n])
        invariant n0 <= n <= |data| && Exec(n, parser, m, out).Follows(p0, data, acc, done) && parser.state.InField?
        invariant m == m0 && out == out0 && errno == OK
        decreases |data| - n
      {
        NameCharFollows(Exec(n, parser, m, out), p0, data, acc, done);
        done := done + [Data(OnHeaderField, [data[n]])];
        var h := FieldChar(parser.headerState, parser.index, data[n]);
        parser := parser.(headerState := h.0, index := h.1);
        n := n + 1;
      }
      CountHeader(n - n0);
      if n < |data| {
        NameEndFollows(Exec(n, parser, m, out), p0, data, acc, done);
        if data[n] != ':' {
          errno := INVALID_HEADER_TOKEN;
          return;
        }
        parser := parser.(state := At(ValueDiscardWs));
        out := out + Deliver(m, OnHeaderField, data, n);
        m := m.With(OnHeaderField, -1);
        n := n + 1;
      }
    }

    /** The state s_header_value: takes all of the value that is in the buffer, and skips
        to the end of the line if nothing is looked for in it. */
    method InValueTurn(data: string, n0: nat, m0: Marks, out0: seq<Event>, ghost p0: Parser, ghost acc: seq<Event>,
                       ghost done0: seq<Event>)
      returns (n: nat, m: Marks, out: seq<Event>, ghost done: seq<Event>)
      requires Exec(n0, parser, m0, out0).Follows(p0, data, acc, done0) && n0 < |data| && parser.state.InValue? &&
        errno == OK
      modifies this
      ensures errno != OK ==> Run(p0, data).ending == Refused(errno) && Run(p0, data).used == n
      ensures errno == OK ==>
        Exec(n, parser, m, out).Follows(p0, data, acc, done) &&
        (n > n0 || (n == n0 && Rank(parser.state) < old(Rank(parser.state))))
      ensures parser.state.InValue? || parser.state == At(HeaderAlmostDone)
    {
      hide *;
      n, m, out, done := n0, m0, out0, done0;
      while n < |data|
        invariant n0 <= n <= |data| && Exec(n, parser, m, out).Follows(p0, data, acc, done) && parser.state.InValue?
        invariant m == m0 && out == out0 && errno == OK && Rank(parser.state) == Rank(old(parser.state))
        decreases |data| - n
      {
        var ch := data[n];
        if ch == CR || ch == LF {
          ValueEndFollows(Exec(n, parser, m, out), p0, data, acc, done);
          parser := parser.(state := At(HeaderAlmostDone));
          CountHeader(n - n0);
          out := out + Deliver(m, OnHeaderValue, data, n);
          m := m.With(OnHeaderValue, -1);
          if ch == CR { n := n + 1; } else { CountHeader(n - 1 - n0); }
          return;
        }
        if parser.headerState.General? {
          var e := LineEnd(data, n);
          ValueFollows(Exec(n, parser, m, out), p0, data, acc, done, e - n);
          done := done + Singles(OnHeaderValue, data[n..e]);
          n := e;
        } else {
          OneInLine(ch);
          ValueCharFollows(Exec(n, parser, m, out), p0, data, acc, done);
          var e := ValueChar(parser, ch);
          if e.Error? {
            errno := e.errno;
            return;
          }
          parser := e.p;
          done := done + [Data(OnHeaderValue, [ch])];
          n := n + 1;
        }
      }
      CountHeader(n - n0);
    }

    /** The state s_chunk_data: all of the chunk that is in the buffer at once. */
    method InChunkTurn(data: string, n0: nat, m0: Marks, out: seq<Event>, ghost p0: Parser, ghost acc: seq<Event>,
                       ghost done0: seq<Event>)
      returns (n: nat, m: Marks, ghost done: seq<Event>)
      requires Exec(n0, parser, m0, out).Follows(p0, data, acc, done0) && n0 < |data| && parser.state.InChunk?
      modifies this`parser
      ensures Exec(n, parser, m, out).Follows(p0, data, acc, done) && n > n0
      ensures parser.state != AtChunk(SizeStart)
    {
      hide *;
      var toRead := if parser.contentLength < |data| - n0 then parser.contentLength else |data| - n0;
      ChunkTurnFollows(Exec(n0, parser, m0, out), p0, data, acc, done0, toRead);
      m := m0.Mark(OnBody, n0);
      parser := parser.(contentLength := parser.contentLength - toRead);
      n, done := n0 + toRead, done0 + Singles(OnBody, data[n0..n0 + toRead]);
      if parser.contentLength == 0 { parser := parser.(state := AtChunk(DataAlmostDone)); }
    }

    /** The state s_body_identity. A body that is complete is delivered, and its last
        byte looked at again. */
    method InBodyTurn(data: string, n0: nat, m0: Marks, out0: seq<Event>, ghost p0: Parser, ghost acc: seq<Event>,
                      ghost done0: seq<Event>)
      returns (n: nat, m: Marks, out: seq<Event>, ghost done: seq<Event>)
      requires Exec(n0, parser, m0, out0).Follows(p0, data, acc, done0) && n0 < |data| && parser.state.InBody?
      requires parser.contentLength > 0
      modifies this`parser
      ensures Exec(n, parser, m, out).Follows(p0, data, acc, done) && !parser.state.AtChunk?
      ensures n > n0 || (n == n0 && Rank(parser.state) < old(Rank(parser.state)))
    {
      hide *;
      var toRead := if parser.contentLength < |data| - n0 then parser.contentLength else |data| - n0;
      m, out := m0.Mark(OnBody, n0), out0;
      if toRead < parser.contentLength {
        PartFollows(Exec(n0, parser, m0, out0), p0, data, acc, done0, toRead);
        parser := parser.(contentLength := parser.contentLength - toRead);
        n, done := n0 + toRead, done0 + Singles(OnBody, data[n0..n0 + toRead]);
      } else {
        done := AllFollows(Exec(n0, parser, m0, out0), p0, data, acc, done0);
        parser := parser.(contentLength := 0, state := At(MessageDone));
        out := out + Deliver(m, OnBody, data, n0 + toRead);
        m := m.With(OnBody, -1);
        n := n0 + toRead - 1;
      }
    }

    /** The states without loops. `stop` says that parsing ends for another protocol. */
    method PlainTurn(data: string, n0: nat, m0: Marks, out0: seq<Event>, ghost p0: Parser, ghost acc: seq<Event>,
                     ghost done0: seq<Event>)
      returns (n: nat, m: Marks, out: seq<Event>, stop: bool, ghost done: seq<Event>)
      requires Exec(n0, parser, m0, out0).Follows(p0, data, acc, done0) && n0 < |data| && !BodyState(parser.state)
      requires errno == OK
      modifies this
      ensures errno != OK ==> Run(p0, data).ending == Refused(errno) && Run(p0, data).used == n
      ensures errno == OK && stop ==>
        var o := Run(p0, data);
        o.ending == Upgraded && o.used == n && o.p == parser && Feed(acc, out) == Feed(acc, o.events) &&
        Fits(Feed(acc, out), parser.state) && Valid(parser)
      ensures errno == OK && !stop ==>
        Exec(n, parser, m, out).Follows(p0, data, acc, done) &&
        (n > n0 || (n == n0 && Rank(parser.state) < old(Rank(parser.state))))
      ensures errno == OK && parser.state == AtChunk(SizeStart) ==> nread == 0
    {
      hide *;
      n, m, out, stop, done := n0, m0, out0, false, done0;
      var was := parser;
      PlainTurnFollows(Exec(n0, parser, m0, out0), p0, data, acc, done0);
      var e := Step(parser, data[n0]);
      if e.Error? {
        errno := e.errno;
        return;
      }
      if e.p.state == AtChunk(SizeStart) { SizeStartsAfter(parser, data[n0]); }
      if ResetsCount(parser.state) { nread := 0; }
      if e.stop {
        parser, n, out, stop := e.p, n0 + 1, out0 + e.events, true;
        return;
      }
      var y := Turned(Exec(n0, parser, m0, out0), e, data);
      parser, n, m, out := e.p, y.n, y.m, y.out;
      done := done0 + e.events;
    }

    /** The callbacks for the marks that are left at the end of the buffer; at most one is
        set. */
    method Flush(data: string, m: Marks, out0: seq<Event>, ghost p0: Parser, ghost acc: seq<Event>,
                 ghost done: seq<Event>)
      returns (out: seq<Event>)
      requires Exec(|data|, parser, m, out0).Follows(p0, data, acc, done)
      ensures var o := Run(p0, data);
        o.ending == Through && o.used == |data| && o.p == parser && Feed(acc, out) == Feed(acc, o.events) &&
        Fits(Feed(acc, out), parser.state) && Valid(parser)
    {
      hide Run;
      var x := Exec(|data|, parser, m, out0);
      OneMark(m, parser.state, |data|);
      assert m.Count() <= 1;
      Ends(x, p0, data, acc, done);
      out := out0 + Deliver(m, OnHeaderField, data, |data|) + Deliver(m, OnHeaderValue, data, |data|) +
             Deliver(m, OnUrl, data, |data|) + Deliver(m, OnBody, data, |data|) + Deliver(m, OnStatus, data, |data|);
    }

    /** http_parser_execute on a buffer. `acc` are the callbacks made before, joined. If
        the byte-by-byte run refuses a byte, so does the parser, with the same error at
        the same byte; otherwise it leaves the same state, and makes the same callbacks
        up to how data is cut. */
    method Execute(data: string, ghost acc: seq<Event>) returns (used: nat, out: seq<Event>)
      requires Good() && Fits(acc, parser.state) && errno == OK && data != []
      modifies this
      ensures var o := Run(old(parser), data);
        used == o.used &&
        if o.ending.Refused? then errno == o.ending.errno && errno != OK
        else
          errno == OK && Good() && parser == o.p && Feed(acc, out) == Feed(acc, o.events) &&
          Fits(Feed(acc, out), parser.state)
    {
      hide Run, Feed, Fits, Valid, Rank, Exec.Follows, StartMarks;
      ghost var p0 := parser;
      var n, m, stop := 0, StartMarks(parser.state), false;
      ghost var done: seq<Event> := [];
      out := [];
      Starts(parser, data, acc);
      while n < |data|
        invariant n <= |data| && errno == OK && !stop && Exec(n, parser, m, out).Follows(p0, data, acc, done)
        invariant parser.state == AtChunk(SizeStart) ==> nread == 0
        decreases |data| - n, Rank(parser.state)
      {
        if ParsingHeader(parser.state) { CountHeader(1); }
        FollowsMeans(Exec(n, parser, m, out), p0, data, acc, done);
        if parser.state.InField? {
          n, m, out, done := InFieldTurn(data, n, m, out, p0, acc, done);
        } else if parser.state.InValue? {
          n, m, out, done := InValueTurn(data, n, m, out, p0, acc, done);
        } else if parser.state.InChunk? {
          n, m, done := InChunkTurn(data, n, m, out, p0, acc, done);
        } else if parser.state.InBody? {
          n, m, out, done := InBodyTurn(data, n, m, out, p0, acc, done);
        } else if parser.state.InBodyToEof? {
          RestFollows(Exec(n, parser, m, out), p0, data, acc, done);
          m, done, n := m.Mark(OnBody, n), done + Singles(OnBody, data[n..|data|]), |data|;
        } else {
          if parser.state == AtChunk(SizeStart) { assert nread == 1; }
          n, m, out, stop, done := PlainTurn(data, n, m, out, p0, acc, done);
        }
        if errno != OK || stop { return n, out; }
        FollowsMeans(Exec(n, parser, m, out), p0, data, acc, done);
      }
      out := Flush(data, m, out, p0, acc, done);
      used := |data|;
    }

    /** The input in pieces, one call for each. However it is cut, the parser is left in
        the same state after input that goes through, with the same callbacks up to how
        data is cut, and input that is refused is refused with the same error. */
    method ExecutePieces(pieces: seq<string>, ghost acc: seq<Event>) returns (out: seq<Event>)
      requires Good() && Fits(acc, parser.state) && errno == OK && NoneEmpty(pieces)
      modifies this
      ensures var o := Run(old(parser), Joined(pieces));
        (o.ending.Refused? ==> errno == o.ending.errno) &&
        (o.ending.Through? ==> errno == OK && Good() && parser == o.p && Feed(acc, out) == Feed(acc, o.events))
    {
      hide Run, Feed, Fits, Valid;
      ghost var p0 := parser;
      var i := 0;
      out := [];
      assert Feed(acc, out) == acc by { FeedNothing(acc); }
      RunNothing(p0);
      while i < |pieces| && errno == OK
        invariant i <= |pieces| && Valid(p0) && (errno == OK ==> Good() && Fits(Feed(acc, out), parser.state))
        invariant var o := Run(p0, Joined(pieces[..i]));
          (o.ending.Refused? ==> errno == o.ending.errno && errno != OK) &&
          (o.ending.Through? ==> errno == OK && parser == o.p && Feed(acc, out) == Feed(acc, o.events))
        decreases |pieces| - i
      {
        ghost var a := Joined(pieces[..i]);
        assert pieces[..i + 1][..i] == pieces[..i];
        if Run(p0, a).ending != Through { RunEnded(p0, a, pieces[i]); }
        var was := out;
        var used, more := Execute(pieces[i], Feed(acc, was));
        if Run(p0, a).ending == Through { NextPiece(p0, acc, a, was, pieces[i], more); }
        FeedAppend(acc, was, more);
        out, i := was + more, i + 1;
      }
      Leftover(p0, pieces, i);
    }

    /** http_parser_execute on an empty buffer: the connection has ended. A body that ends
        with it is complete; inside of a message anything else is an error. */
    method ExecuteEof() returns (used: nat, out: seq<Event>)
      requires Good() && errno == OK
      modifies this`errno
      ensures out == if parser.state.InBodyToEof? then [MessageComplete] else []
      ensures errno == (if parser.state.InBodyToEof? || !InMessage(parser.state) then OK else INVALID_EOF_STATE)
      ensures used == (if errno == OK then 0 else 1)
    {
      if parser.state.InBodyToEof? { return 0, [MessageComplete]; }
      if !InMessage(parser.state) { return 0, []; }
      errno := INVALID_EOF_STATE;
      return 1, [];
    }
  }
}
