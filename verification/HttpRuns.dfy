/** Whole inputs of http_parser.c, byte by byte: what they leave and which callbacks they
    cause, up to how the data of a field is cut into callbacks. */
module HttpRuns {
  import opened HttpSteps

  // ----- bytes -----

  /** All turns for one byte. */
  function Byte(p: Parser, c: char): Effect
    requires Valid(p)
    decreases Rank(p.state)
  {
    StepSound(p, c);
    var e := Step(p, c);
    if e.Error? || !e.again then e
    else
      var f := Byte(e.p, c);
      if f.Error? then f else f.(events := e.events + f.events)
  }

  /** How a run ends: after all of the input, at a byte that is refused, or after a byte
      behind which another protocol starts. `used` is the number of bytes parsed. */
  datatype Ending = Through | Refused(errno: Errno) | Upgraded

  datatype Outcome = Outcome(p: Parser, events: seq<Event>, used: nat, ending: Ending)
  {
    function After(n: nat, es: seq<Event>): Outcome { this.(events := es + events, used := n + used) }
  }

  function Run(p: Parser, data: string): (o: Outcome)
    requires Valid(p)
    ensures Valid(o.p)
    decreases |data|
  {
    if data == [] then Outcome(p, [], 0, Through)
    else
      ByteSound(p, data[0]);
      var e := Byte(p, data[0]);
      if e.Error? then Outcome(p, [], 0, Refused(e.errno))
      else if e.stop then Outcome(e.p, e.events, 1, Upgraded)
      else Run(e.p, data[1..]).After(1, e.events)
  }

  lemma {:induction false} RunNothing(p: Parser)
    requires Valid(p)
    ensures Run(p, []) == Outcome(p, [], 0, Through)
  {
  }

  lemma {:induction false} ByteSound(p: Parser, c: char)
    requires Valid(p)
    ensures var e := Byte(p, c); e.Effect? ==> Valid(e.p) && !e.again
    decreases Rank(p.state)
  {
    hide Step;
    StepSound(p, c);
    var e := Step(p, c);
    if e.Effect? && e.again { ByteSound(e.p, c); }
  }

  /** A run can be cut anywhere. */
  lemma {:induction false} RunAppend(p: Parser, a: string, b: string)
    requires Valid(p) && Run(p, a).ending == Through
    ensures Run(p, a + b) == Run(Run(p, a).p, b).After(|a|, Run(p, a).events)
    ensures Run(p, a).used == |a|
    decreases |a|
  {
    hide Byte;
    if a == [] {
      assert a + b == b;
      assert [] + Run(p, b).events == Run(p, b).events;
    } else {
      ByteSound(p, a[0]);
      var e := Byte(p, a[0]);
      RunAppend(e.p, a[1..], b);
      assert (a + b)[1..] == a[1..] + b;
      var o := Run(e.p, a[1..]);
      assert e.events + (o.events + Run(o.p, b).events) == e.events + o.events + Run(o.p, b).events;
    }
  }

  /** A run that ends early ends in the same way whatever follows. */
  lemma {:induction false} RunEnded(p: Parser, a: string, b: string)
    requires Valid(p) && Run(p, a).ending != Through
    ensures Run(p, a + b) == Run(p, a)
    decreases |a|
  {
    hide Byte;
    if a != [] {
      ByteSound(p, a[0]);
      var e := Byte(p, a[0]);
      assert (a + b)[1..] == a[1..] + b;
      if e.Effect? && !e.stop { RunEnded(e.p, a[1..], b); }
    }
  }

  // ----- turns of a run -----

  /** What is left of a run after one turn. */
  lemma {:induction false} Turn(p: Parser, data: string)
    requires Valid(p) && data != []
    ensures var e, o := Step(p, data[0]), Run(p, data);
      if e.Error? then o.ending == Refused(e.errno) && o.used == 0
      else
        Valid(e.p) &&
        if e.stop then o == Outcome(e.p, e.events, 1, Upgraded)
        else if e.again then
          Run(e.p, data).ending == o.ending && Run(e.p, data).used == o.used &&
          (!o.ending.Refused? ==> o == Run(e.p, data).After(0, e.events))
        else o == Run(e.p, data[1..]).After(1, e.events)
  {
    hide Step;
    StepSound(p, data[0]);
    ByteSound(p, data[0]);
    var e := Step(p, data[0]);
    if e.Effect? && e.again {
      ByteSound(e.p, data[0]);
      var f := Byte(e.p, data[0]);
      if f.Effect? && !f.stop {
        var o := Run(f.p, data[1..]);
        assert e.events + f.events + o.events == e.events + (f.events + o.events);
      }
    }
  }

  // ----- callbacks, joined -----

  /** A callback after those in `acc`: data of the same field is joined. */
  function Add(acc: seq<Event>, e: Event): seq<Event> {
    if e.Data? && acc != [] && acc[|acc| - 1].Data? && acc[|acc| - 1].field == e.field then
      acc[|acc| - 1 := Data(e.field, acc[|acc| - 1].bytes + e.bytes)]
    else acc + [e]
  }

  function Feed(acc: seq<Event>, es: seq<Event>): seq<Event>
    decreases |es|
  {
    if es == [] then acc else Feed(Add(acc, es[0]), es[1..])
  }

  lemma {:induction false} FeedAppend(acc: seq<Event>, a: seq<Event>, b: seq<Event>)
    ensures Feed(acc, a + b) == Feed(Feed(acc, a), b)
    decreases |a|
  {
    if a == [] {
      assert a + b == b;
    } else {
      FeedAppend(Add(acc, a[0]), a[1..], b);
      assert (a + b)[1..] == a[1..] + b;
    }
  }

  lemma {:induction false} FeedOne(acc: seq<Event>, e: Event)
    ensures Feed(acc, [e]) == Add(acc, e)
  {
    assert [e][1..] == [];
  }

  lemma {:induction false} AddTwice(acc: seq<Event>, f: Field, x: string, y: string)
    ensures Add(Add(acc, Data(f, x)), Data(f, y)) == Add(acc, Data(f, x + y))
  {
    if acc != [] && acc[|acc| - 1].Data? && acc[|acc| - 1].field == f {
      assert acc[|acc| - 1].bytes + x + y == acc[|acc| - 1].bytes + (x + y);
    }
  }

  /** The last callback delivered data of field `f`. */
  predicate Open(acc: seq<Event>, f: Field) { acc != [] && acc[|acc| - 1].Data? && acc[|acc| - 1].field == f }

  lemma {:induction false} AddNothing(acc: seq<Event>, f: Field)
    requires Open(acc, f)
    ensures Add(acc, Data(f, "")) == acc
  {
    assert acc[|acc| - 1].bytes + "" == acc[|acc| - 1].bytes;
  }

  /** In the state of a field, the last callback was for that field. */
  predicate Fits(acc: seq<Event>, s: State) { FieldOf(s).Some? ==> Open(acc, FieldOf(s).field) }

  lemma {:induction false} StepFits(acc: seq<Event>, p: Parser, c: char)
    requires Valid(p) && Fits(acc, p.state) && Step(p, c).Effect?
    ensures Fits(Feed(acc, Step(p, c).events), Step(p, c).p.state)
  {
    StepSound(p, c);
    var g := FieldOf(Step(p, c).p.state);
    if g.Some? { FeedOne(acc, Data(g.field, [c])); }
  }

  /** The bytes of a field one by one, and together. */
  function Singles(f: Field, bytes: string): seq<Event>
    decreases |bytes|
  {
    if bytes == [] then [] else [Data(f, bytes[..1])] + Singles(f, bytes[1..])
  }

  lemma {:induction false} FeedSingles(acc: seq<Event>, f: Field, bytes: string)
    requires bytes != []
    ensures Feed(acc, Singles(f, bytes)) == Add(acc, Data(f, bytes))
    decreases |bytes|
  {
    var rest := Singles(f, bytes[1..]);
    assert Singles(f, bytes)[1..] == rest && Singles(f, bytes)[0] == Data(f, bytes[..1]);
    assert bytes[..1] + bytes[1..] == bytes;
    if |bytes| == 1 {
      assert bytes[1..] == [] && bytes[..1] == bytes;
    } else {
      FeedSingles(Add(acc, Data(f, bytes[..1])), f, bytes[1..]);
      AddTwice(acc, f, bytes[..1], bytes[1..]);
    }
  }
}
