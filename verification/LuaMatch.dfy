/** The matcher of lib_string.c: a cursor over the pattern text, captures that are
    set and undone in place, and loops that expand repetitions. Every method is
    proved against the search `Subject.First`, whose result LuaPattern proves to be
    the derivation with priority. */
module LuaMatch {
  import opened LuaPattern

  /** The errors that the C code raises by a non-local exit. */
  datatype Error =
    | PatternTooComplex
    | TooManyCaptures
    | InvalidCapture
    | InvalidPatternCapture
    | MalformedPattern

  datatype Result = Fail | End(end: nat) | Err(error: Error)

  /** How a turn of the matcher ends: with a result, or by jumping to its start. */
  datatype Next = Return(result: Result) | Goto(s: nat, p: nat)

  class MatchState {
    const t: Subject
    var level: nat
    var depth: nat
    var capture: array<Cap>

    constructor (t: Subject)
      ensures this.t == t && fresh(capture) && Valid()
      ensures level == depth == 0
    {
      this.t := t;
      level, depth := 0, 0;
      capture := new Cap[MAX_CAPTURES](_ => Cap(0, 0));
    }

    ghost predicate Valid()
      reads this
    {
      capture.Length == MAX_CAPTURES && level <= MAX_CAPTURES
    }

    ghost function Caps(): seq<Cap>
      requires Valid()
      reads this, capture
    {
      capture[..level]
    }

    /** The state is fit to match at source position `s`. */
    ghost predicate Fit(s: nat)
      reads this, capture
    {
      Valid() && s <= |t.src| && t.CapsOk(Caps(), s)
    }

    /** The pattern from `p` on is well formed, given the captures made so far, and
        its nesting stays in the limit. */
    ghost predicate Legal(p: nat, caps: seq<Cap>, depth: nat) {
      var q := t.Parse(p);
      q.Some? && WellFormed(q.value, Flags(caps)) && depth + 1 + Nesting(q.value) <= MAX_DEPTH
    }

    /** What the search finds for the pattern at `p` from source position `s`. */
    ghost function Want(s: nat, p: nat, caps: seq<Cap>): Option<Out>
      requires s <= |t.src| && t.CapsOk(caps, s)
      requires t.Parse(p).Some? && WellFormed(t.Parse(p).value, Flags(caps))
    {
      t.ParsedInText(p);
      t.First(t.Parse(p).value, s, caps)
    }

    /** The result and the captures are the ones that the search found. */
    ghost predicate Delivers(r: Result, want: Option<Out>)
      requires Valid()
      reads this, capture
    {
      match want
      case None => r.Fail?
      case Some(out) => r == End(out.end) && Caps() == out.caps
    }

    /** A failed match has undone every change; a match has moved forward. */
    twostate predicate Restored(s: nat, r: Result)
      requires old(Fit(s))
      reads this, capture
    {
      Valid() && capture == old(capture) &&
      (r.Fail? ==> Caps() == old(Caps()) && depth == old(depth)) &&
      (r.End? ==> s <= r.end && Fit(r.end) && depth == old(depth))
    }

    // ----- single characters -----

    method ClassEnd(p: nat) returns (r: Option<nat>)
      requires p < |t.pat|
      ensures r == t.ClassEnd(p)
    {
      var i := p + 1;
      if t.At(p) == '%' {
        if t.At(i) == NUL { return None; }
        return Some(i + 1);
      }
      if t.At(p) == '[' {
        if t.At(i) == '^' { i := i + 1; }
        ghost var first := i;
        while true
          invariant t.BracketEnd(first) == t.BracketEnd(i)
          decreases |t.pat| - i
        {
          if t.At(i) == NUL { return None; }
          var escape := t.At(i) == '%';
          i := i + 1;
          if escape && t.At(i) != NUL { i := i + 1; }
          if t.At(i) == ']' { break; }
        }
        return Some(i + 1);
      }
      return Some(i);
    }

    method MatchBracketClass(c: char, p: nat, ec: nat) returns (r: bool)
      ensures r == t.InBracket(c, p, ec)
    {
      var sig, q := true, p;
      if t.At(q + 1) == '^' {
        sig, q := false, q + 1;
      }
      q := q + 1;
      ghost var first := q;
      while q < ec
        invariant t.Member(c, first, ec) == t.Member(c, q, ec)
        decreases ec - q
      {
        if t.At(q) == '%' {
          q := q + 1;
          if InClass(c, t.At(q)) { return sig; }
        } else if t.At(q + 1) == '-' && q + 2 < ec {
          q := q + 2;
          if t.At(q - 2) <= c <= t.At(q) { return sig; }
        } else if t.At(q) == c {
          return sig;
        }
        q := q + 1;
      }
      return !sig;
    }

    method SingleMatch(s: nat, p: nat, ep: nat) returns (m: bool)
      requires p < ep
      ensures m == t.AdmitsAt(s, p, ep)
    {
      if s >= |t.src| { return false; }
      var c := t.src[s];
      match t.At(p)
      case '.' => m := true;
      case '%' => m := InClass(c, t.At(p + 1));
      case '[' => m := MatchBracketClass(c, p, ep - 1);
      case _ => m := t.At(p) == c;
    }

    method MatchBalance(s: nat, p: nat) returns (r: Result)
      requires s <= |t.src|
      ensures t.At(p) == NUL || t.At(p + 1) == NUL ==> r == Err(MalformedPattern)
      ensures t.At(p) != NUL && t.At(p + 1) != NUL ==>
        r == match t.BalanceEnd(s, t.At(p), t.At(p + 1)) { case None => Fail case Some(e) => End(e) }
    {
      if t.At(p) == NUL || t.At(p + 1) == NUL { return Err(MalformedPattern); }
      if s == |t.src| || t.src[s] != t.At(p) { return Fail; }
      var b, e, open, i := t.At(p), t.At(p + 1), 1, s + 1;
      while i < |t.src|
        invariant open > 0 && s < i
        invariant t.Closing(s + 1, b, e, 1) == t.Closing(i, b, e, open)
      {
        if t.src[i] == e {
          open := open - 1;
          if open == 0 { return End(i + 1); }
        } else if t.src[i] == b {
          open := open + 1;
        }
        i := i + 1;
      }
      return Fail;
    }

    // ----- captures -----

    method CheckCapture(digit: char) returns (l: int)
      requires Valid()
      ensures l == -1 || (l == digit as int - '1' as int && 0 <= l < level && capture[l].len != UNFINISHED)
      ensures l == -1 ==>
        var k := digit as int - '1' as int; !(0 <= k < level && capture[k].len != UNFINISHED)
    {
      l := digit as int - '1' as int;
      if l < 0 || l >= level || capture[l].len == UNFINISHED { l := -1; }
    }

    method CaptureToClose() returns (l: int)
      requires Valid()
      ensures l == LastTrue(Flags(Caps()))
    {
      l := level - 1;
      while l >= 0
        invariant -1 <= l < level
        invariant forall j :: l < j < level ==> capture[j].len != UNFINISHED
      {
        if capture[l].len == UNFINISHED { break; }
        l := l - 1;
      }
      LastTrueIs(Flags(Caps()), l);
    }

    method StartCapture(s: nat, p: nat, what: int) returns (r: Result)
      requires Fit(s) && p <= |t.pat| && what in {UNFINISHED, POSITION}
      modifies this`level, this`depth, capture
      ensures Restored(s, r)
      ensures var caps := old(Caps()) + [Cap(s, what)];
        old(level) < MAX_CAPTURES && Legal(p, caps, old(depth)) ==>
          Delivers(r, Want(s, p, caps))
      decreases |t.pat| - p, 3
    {
      if level >= MAX_CAPTURES { return Err(TooManyCaptures); }
      capture[level] := Cap(s, what);
      level := level + 1;
      assert Caps() == old(Caps()) + [Cap(s, what)];
      r := Match(s, p);
      if r.Fail? {
        level := level - 1;
        assert Caps() == (old(Caps()) + [Cap(s, what)])[..level] == old(Caps());
      }
    }

    method EndCapture(s: nat, p: nat) returns (r: Result)
      requires Fit(s) && p <= |t.pat|
      modifies this`level, this`depth, capture
      ensures Restored(s, r)
      ensures var caps, l := old(Caps()), LastTrue(Flags(old(Caps())));
        l >= 0 ==>
          var caps' := caps[l := Cap(caps[l].init, s - caps[l].init)];
          Legal(p, caps', old(depth)) ==> Delivers(r, Want(s, p, caps'))
      decreases |t.pat| - p, 3
    {
      var l := CaptureToClose();
      if l < 0 { return Err(InvalidPatternCapture); }
      capture[l] := Cap(capture[l].init, s - capture[l].init);
      assert Caps() == old(Caps())[l := Cap(old(Caps())[l].init, s - old(Caps())[l].init)];
      r := Match(s, p);
      if r.Fail? {
        capture[l] := Cap(capture[l].init, UNFINISHED);
        assert Caps() == old(Caps());
      }
    }

    method MatchCapture(s: nat, digit: char) returns (r: Result)
      requires Fit(s)
      ensures r.Err? <==> (var k := digit as int - '1' as int;
        !(0 <= k < level && capture[k].len != UNFINISHED))
      ensures !r.Err? ==>
        var c := capture[digit as int - '1' as int];
        r == if t.Repeats(c, s) then End(s + c.len) else Fail
    {
      var l := CheckCapture(digit);
      if l < 0 { return Err(InvalidCapture); }
      var c := capture[l];
      // the length of a position capture becomes a huge unsigned number
      if 0 <= c.len <= |t.src| - s {
        var i := 0;
        while i < c.len
          invariant 0 <= i <= c.len
          invariant t.src[s..s + i] == t.src[c.init..c.init + i]
        {
          if t.src[c.init + i] != t.src[s + i] {
            assert t.src[s..s + c.len][i] == t.src[s + i];
            assert t.src[c.init..c.init + c.len][i] == t.src[c.init + i];
            return Fail;
          }
          assert t.src[s..s + i + 1] == t.src[s..s + i] + [t.src[s + i]];
          assert t.src[c.init..c.init + i + 1] == t.src[c.init..c.init + i] + [t.src[c.init + i]];
          i := i + 1;
        }
        return End(s + c.len);
      }
      return Fail;
    }

    // ----- repetitions -----

    /** Counts the repetitions from `s`: the first loop of max_expand. */
    method CountRun(s: nat, p: nat, ep: nat) returns (i: nat)
      requires s <= |t.src| && p < ep
      ensures i == t.Run(s, p, ep)
    {
      i := 0;
      while true
        invariant s + i <= |t.src|
        invariant t.Run(s, p, ep) == i + t.Run(s + i, p, ep)
        decreases |t.src| - i
      {
        var m := SingleMatch(s + i, p, ep);
        if !m { break; }
        i := i + 1;
      }
    }

    /** What the search finds with at most `n` repetitions (none below zero). */
    ghost function WantGreedy(s: nat, p: nat, caps: seq<Cap>, n: int): Option<Out>
      requires s + n <= |t.src| && t.CapsOk(caps, s)
      requires t.Parse(p).Some? && WellFormed(t.Parse(p).value, Flags(caps))
    {
      t.ParsedInText(p);
      if n < 0 then None else t.Greedy(t.Parse(p).value, s, caps, n)
    }

    lemma {:induction false} WantGreedyStep(s: nat, p: nat, caps: seq<Cap>, n: nat)
      requires s + n <= |t.src| && t.CapsOk(caps, s)
      requires t.Parse(p).Some? && WellFormed(t.Parse(p).value, Flags(caps))
      ensures var first := Want(s + n, p, caps);
        WantGreedy(s, p, caps, n) == if first.Some? then first else WantGreedy(s, p, caps, n - 1)
    {
    }

    method MaxExpand(s: nat, p: nat, ep: nat) returns (r: Result)
      requires Fit(s) && p < ep < |t.pat|
      modifies this`level, this`depth, capture
      ensures Restored(s, r)
      ensures Legal(ep + 1, old(Caps()), old(depth)) ==>
        Delivers(r, WantGreedy(s, ep + 1, old(Caps()), t.Run(s, p, ep)))
      decreases |t.pat| - ep
    {
      ghost var caps, d, legal := Caps(), depth, Legal(ep + 1, Caps(), depth);
      var i: int := CountRun(s, p, ep);
      ghost var n := i;
      while i >= 0
        invariant -1 <= i <= n
        invariant Fit(s) && capture == old(capture) && Caps() == caps && depth == d
        invariant legal ==> WantGreedy(s, ep + 1, caps, n) == WantGreedy(s, ep + 1, caps, i)
      {
        if legal { WantGreedyStep(s, ep + 1, caps, i); }
        r := Match(s + i, ep + 1);
        if !r.Fail? { return; }
        i := i - 1;
      }
      return Fail;
    }

    method MinExpand(s0: nat, p: nat, ep: nat) returns (r: Result)
      requires Fit(s0) && p < ep < |t.pat|
      modifies this`level, this`depth, capture
      ensures Restored(s0, r)
      ensures old(Legal(ep + 1, Caps(), depth)) ==>
        (t.ParsedInText(ep + 1);
         Delivers(r, t.Reluctant(t.Parse(ep + 1).value, s0, old(Caps()), p, ep)))
      decreases |t.pat| - ep
    {
      t.ParsedInText(ep + 1);
      var s := s0;
      ghost var want := t.Parse(ep + 1);
      while true
        invariant s0 <= s && Fit(s) && capture == old(capture)
        invariant Caps() == old(Caps()) && depth == old(depth)
        invariant old(Legal(ep + 1, Caps(), depth)) ==>
          t.Reluctant(want.value, s0, old(Caps()), p, ep) == t.Reluctant(want.value, s, old(Caps()), p, ep)
        decreases |t.src| - s
      {
        r := Match(s, ep + 1);
        if !r.Fail? { return; }
        var m := SingleMatch(s, p, ep);
        if !m { return Fail; }
        s := s + 1;
      }
    }

    // ----- the matcher -----

    /** One turn of the matcher. A turn that `goto`s on, and the search it leaves
        to do, or the result that the turn returns. */
    ghost predicate Leads(n: Next, s: nat, p: nat, caps: seq<Cap>, depth: nat)
      requires Valid() && s <= |t.src| && t.CapsOk(caps, s)
      reads this, capture
    {
      Legal(p, caps, depth) ==>
        match n
        case Return(r) => Delivers(r, Want(s, p, caps))
        case Goto(s', p') =>
          Fit(s') && Caps() == caps && Legal(p', caps, depth) &&
          Want(s, p, caps) == Want(s', p', caps)
    }

    /** Where the C code jumps back to its first label, or its result. */
    twostate predicate Turned(n: Next, s: nat, p: nat)
      requires old(Fit(s))
      reads this, capture
    {
      match n
      case Return(r) => Restored(s, r)
      case Goto(s', p') =>
        s <= s' && p < p' <= |t.pat| && Fit(s') && capture == old(capture) &&
        Caps() == old(Caps()) && depth == old(depth)
    }

    lemma {:induction false} OpenLeads(s: nat, p: nat, what: int, p': nat, caps: seq<Cap>, depth: nat)
      requires s <= |t.src| && t.CapsOk(caps, s) && Legal(p, caps, depth)
      requires t.At(p) == '(' && what in {UNFINISHED, POSITION}
      requires if t.At(p + 1) == ')' then what == POSITION && p' == p + 2
               else what == UNFINISHED && p' == p + 1
      ensures |caps| < MAX_CAPTURES && Legal(p', caps + [Cap(s, what)], depth + 1)
      ensures Want(s, p, caps) == Want(s, p', caps + [Cap(s, what)])
    {
      assert Flags(caps + [Cap(s, what)]) == Flags(caps) + [what == UNFINISHED];
      t.ParsedInText(p);
    }

    lemma {:induction false} CloseLeads(s: nat, p: nat, caps: seq<Cap>, depth: nat)
      requires s <= |t.src| && t.CapsOk(caps, s) && Legal(p, caps, depth)
      requires t.At(p) == ')'
      ensures var l := LastTrue(Flags(caps));
        l >= 0 &&
        var caps' := caps[l := Cap(caps[l].init, s - caps[l].init)];
        Legal(p + 1, caps', depth + 1) && Want(s, p, caps) == Want(s, p + 1, caps')
    {
      var l := LastTrue(Flags(caps));
      assert t.Parse(p).value.item == Close;
      var caps' := caps[l := Cap(caps[l].init, s - caps[l].init)];
      assert Flags(caps') == Flags(caps)[l := false];
      t.ParsedInText(p);
    }

    /** The escapes that are no single character: `%b`, `%f` and back references. */
    predicate Escape(p: nat) {
      t.At(p) == '%' && (t.At(p + 1) in {'b', 'f'} || Digit(t.At(p + 1)))
    }

    lemma {:induction false} EscapeParses(p: nat, caps: seq<Cap>, depth: nat)
      requires p < |t.pat| && Escape(p) && Legal(p, caps, depth)
      ensures t.ParseItem(p).Some? && t.Parse(p).Some?
      ensures var (item, p') := t.ParseItem(p).value;
        !item.Set? && t.Parse(p) == Some(Then(item, t.Parse(p').value)) &&
        t.Parse(p').Some? && Legal(p', caps, depth)
    {
    }

    /** The item at `p` moves the match to `s'` and the captures stay. */
    lemma {:induction false} EscapeLeads(s: nat, p: nat, caps: seq<Cap>, depth: nat, s': Option<nat>)
      requires s <= |t.src| && t.CapsOk(caps, s)
      requires p < |t.pat| && Escape(p) && Legal(p, caps, depth)
      requires var item := t.ParseItem(p).value.0;
        s' == match item
          case Balance(b, e) => t.BalanceEnd(s, b, e)
          case Frontier(i, e) => if i < e && t.AtFrontier(s, i, e) then Some(s) else None
          case Back(d) =>
            var l := d as int - '1' as int;
            if 0 <= l < |caps| && t.Repeats(caps[l], s) then Some(s + caps[l].len) else None
          case _ => None
      ensures s'.None? ==> Want(s, p, caps) == None
      ensures var p' := t.ParseItem(p).value.1;
        s'.Some? ==>
          (s <= s'.value <= |t.src| && t.CapsOk(caps, s'.value) &&
           Legal(p', caps, depth) && Want(s, p, caps) == Want(s'.value, p', caps))
    {
      EscapeParses(p, caps, depth);
      t.ParsedInText(p);
      var (item, p') := t.ParseItem(p).value;
      assert t.Parse(p).value == Then(item, t.Parse(p').value);
    }

    method MatchFrontier(s: nat, p: nat) returns (n: Next)
      requires Fit(s) && p < |t.pat| && depth > 0 && t.At(p) == '%' && t.At(p + 1) == 'f'
      ensures Turned(n, s, p)
      ensures Leads(n, s, p, old(Caps()), old(depth) - 1)
    {
      if t.At(p + 2) != '[' { return Return(Err(MalformedPattern)); }
      var ep := ClassEnd(p + 2);
      if ep.None? { return Return(Err(MalformedPattern)); }
      var previous := if s == 0 then NUL else t.src[s - 1];
      var before := MatchBracketClass(previous, p + 2, ep.value - 1);
      var here := MatchBracketClass(t.SrcAt(s), p + 2, ep.value - 1);
      if Legal(p, Caps(), depth - 1) {
        EscapeLeads(s, p, Caps(), depth - 1, if before || !here then None else Some(s));
      }
      return if before || !here then Return(Fail) else Goto(s, ep.value);
    }

    method MatchEscape(s: nat, p: nat) returns (n: Next)
      requires Fit(s) && p < |t.pat| && depth > 0 && Escape(p)
      ensures Turned(n, s, p)
      ensures Leads(n, s, p, old(Caps()), old(depth) - 1)
    {
      var r: Result;
      ghost var legal := Legal(p, Caps(), depth - 1);
      if t.At(p + 1) == 'b' {
        r := MatchBalance(s, p + 2);
        if legal {
          EscapeLeads(s, p, Caps(), depth - 1, t.BalanceEnd(s, t.At(p + 2), t.At(p + 3)));
        }
        return if r.End? then Goto(r.end, p + 4) else Return(r);
      }
      if t.At(p + 1) == 'f' {
        n := MatchFrontier(s, p);
        return;
      }
      r := MatchCapture(s, t.At(p + 1));
      if legal {
        BackIsClosed(p, Caps(), depth - 1);
        EscapeLeads(s, p, Caps(), depth - 1, if r.End? then Some(r.end) else None);
      }
      return if r.End? then Goto(r.end, p + 2) else Return(r);
    }

    lemma {:induction false} BackIsClosed(p: nat, caps: seq<Cap>, depth: nat)
      requires p < |t.pat| && Escape(p) && Digit(t.At(p + 1)) && Legal(p, caps, depth)
      ensures var l := t.At(p + 1) as int - '1' as int;
        0 <= l < |caps| && caps[l].len != UNFINISHED
    {
      EscapeParses(p, caps, depth);
    }

    method MatchSet(s: nat, p: nat) returns (n: Next)
      requires Fit(s) && p < |t.pat| && depth > 0
      requires t.At(p) !in {'(', ')', NUL} && !(t.At(p) == '$' && t.At(p + 1) == NUL)
      requires !Escape(p)
      modifies this`level, this`depth, capture
      ensures Turned(n, s, p)
      ensures Leads(n, s, p, old(Caps()), old(depth) - 1)
      decreases |t.pat| - p, 0
    {
      t.ParsedInText(p);
      var e := ClassEnd(p);
      hide Subject.CapsOk, Subject.Member, Subject.InBracket, Subject.Closing;
      if e.None? { return Return(Err(MalformedPattern)); }
      var ep := e.value;
      var m := SingleMatch(s, p, ep);
      var r := Fail;
      match t.At(ep) {
        case '?' =>
          if m {
            r := Match(s + 1, ep + 1);
            if !r.Fail? { return Return(r); }
          }
          return Goto(s, ep + 1);
        case '*' =>
          r := MaxExpand(s, p, ep);
        case '+' =>
          if m { r := MaxExpand(s + 1, p, ep); }
        case '-' =>
          r := MinExpand(s, p, ep);
        case _ =>
          if m { return Goto(s + 1, ep); }
      }
      return Return(r);
    }

    method MatchOpen(s: nat, p: nat) returns (n: Next)
      requires Fit(s) && p < |t.pat| && depth > 0 && t.At(p) == '('
      modifies this`level, this`depth, capture
      ensures Turned(n, s, p)
      ensures Leads(n, s, p, old(Caps()), old(depth) - 1)
      decreases |t.pat| - p, 0
    {
      var position := t.At(p + 1) == ')';
      var what, p' := if position then POSITION else UNFINISHED, if position then p + 2 else p + 1;
      if Legal(p, Caps(), depth - 1) { OpenLeads(s, p, what, p', Caps(), depth - 1); }
      var r := StartCapture(s, p', what);
      return Return(r);
    }

    method Step(s: nat, p: nat) returns (n: Next)
      requires Fit(s) && p <= |t.pat| && depth > 0
      modifies this`level, this`depth, capture
      ensures Turned(n, s, p)
      ensures Leads(n, s, p, old(Caps()), old(depth) - 1)
      decreases |t.pat| - p, 1
    {
      if t.At(p) == '(' {
        n := MatchOpen(s, p);
        return;
      }
      if t.At(p) == ')' {
        if Legal(p, Caps(), depth - 1) { CloseLeads(s, p, Caps(), depth - 1); }
        var r := EndCapture(s, p + 1);
        return Return(r);
      }
      if t.At(p) == NUL { return Return(End(s)); }
      if t.At(p) == '$' && t.At(p + 1) == NUL {
        return Return(if s == |t.src| then End(s) else Fail);
      }
      if Escape(p) {
        n := MatchEscape(s, p);
        return;
      }
      n := MatchSet(s, p);
    }

    method Match(s0: nat, p0: nat) returns (r: Result)
      requires Fit(s0) && p0 <= |t.pat|
      modifies this`level, this`depth, capture
      ensures Restored(s0, r)
      ensures Legal(p0, old(Caps()), old(depth)) ==> Delivers(r, Want(s0, p0, old(Caps())))
      decreases |t.pat| - p0, 2
    {
      depth := depth + 1;
      if depth > MAX_DEPTH { return Err(PatternTooComplex); }
      var s, p := s0, p0;
      while true
        invariant p0 <= p <= |t.pat| && s0 <= s && Fit(s) && capture == old(capture)
        invariant Caps() == old(Caps()) && depth == old(depth) + 1
        invariant Legal(p0, old(Caps()), old(depth)) ==>
          Legal(p, old(Caps()), old(depth)) &&
          Want(s0, p0, old(Caps())) == Want(s, p, old(Caps()))
        decreases |t.pat| - p
      {
        var n := Step(s, p);
        match n
        case Return(r') =>
          r := r';
          break;
        case Goto(s', p') =>
          s, p := s', p';
      }
      if !r.Err? { depth := depth - 1; }
    }
  }

  lemma {:induction false} LastTrueIs(open: seq<bool>, l: int)
    requires -1 <= l < |open| && (l >= 0 ==> open[l])
    requires forall j :: l < j < |open| ==> !open[j]
    ensures l == LastTrue(open)
  {
  }
}
