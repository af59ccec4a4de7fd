/** The library functions of lib_string.c that drive the matcher: the search for
    the leftmost match, substitution, and the plain substring search. */
module LuaString {
  import opened LuaPattern
  import opened LuaMatch

  /** Where the pattern proper starts, after an optional anchor. */
  function Start(t: Subject): nat { if t.At(0) == '^' then 1 else 0 }

  /** The pattern is well formed and stays in the nesting limit. */
  ghost predicate LegalPattern(t: Subject) {
    var q := t.Parse(Start(t));
    q.Some? && WellFormed(q.value, []) && 1 + Nesting(q.value) <= MAX_DEPTH
  }

  /** The match with priority at source position `s`. */
  ghost function MatchAt(t: Subject, s: nat): Option<Out>
    requires LegalPattern(t) && s <= |t.src|
  {
    assert Flags([]) == [];
    t.ParsedInText(Start(t));
    t.First(t.Parse(Start(t)).value, s, [])
  }

  /** Runs the matcher from a fresh state. */
  method MatchFresh(ms: MatchState, s: nat) returns (r: Result)
    requires ms.Valid() && s <= |ms.t.src|
    modifies ms`level, ms`depth, ms.capture
    ensures ms.capture == old(ms.capture) && ms.Valid()
    ensures r.End? ==> s <= r.end && ms.Fit(r.end)
    ensures LegalPattern(ms.t) ==> ms.Delivers(r, MatchAt(ms.t, s))
  {
    ms.level, ms.depth := 0, 0;
    assert ms.Caps() == [] && Flags([]) == [];
    r := ms.Match(s, Start(ms.t));
  }

  // ----- captures -----

  /** A number in decimal. */
  function Digits(n: nat): (d: string)
    ensures d != []
  {
    if n < 10 then [n as char + '0'] else Digits(n / 10) + [(n % 10) as char + '0']
  }

  /** The text of capture `i`; of the first, the whole match when nothing was captured. */
  function CaptureText(t: Subject, caps: seq<Cap>, i: int, s: nat, e: nat): Option<string>
    requires s <= e <= |t.src|
  {
    if i >= |caps| then if i == 0 then Some(t.src[s..e]) else None
    else if i < 0 || caps[i].len == UNFINISHED then None
    else if caps[i].len == POSITION then
      if caps[i].init < 0 then None else Some(Digits(caps[i].init + 1))
    else if 0 <= caps[i].init && 0 <= caps[i].len && caps[i].init + caps[i].len <= |t.src| then
      Some(t.src[caps[i].init..caps[i].init + caps[i].len])
    else None
  }

  /** The first `n` captures, or none if one of them is no text. */
  function CaptureTexts(t: Subject, caps: seq<Cap>, n: nat, s: nat, e: nat): Option<seq<string>>
    requires s <= e <= |t.src|
  {
    if n == 0 then Some([])
    else
      var before, last := CaptureTexts(t, caps, n - 1, s, e), CaptureText(t, caps, n - 1, s, e);
      if before.None? || last.None? then None else Some(before.value + [last.value])
  }

  /** All captures; with `whole`, the whole match when nothing was captured. */
  function Captures(t: Subject, caps: seq<Cap>, whole: bool, s: nat, e: nat): Option<seq<string>>
    requires s <= e <= |t.src|
  {
    CaptureTexts(t, caps, if caps == [] && whole then 1 else |caps|, s, e)
  }

  method PushOneCapture(ms: MatchState, i: int, s: nat, e: nat) returns (r: Option<string>)
    requires s <= e && ms.Fit(e) && i >= 0
    ensures r == CaptureText(ms.t, ms.Caps(), i, s, e)
  {
    if i >= ms.level {
      return if i == 0 then Some(ms.t.src[s..e]) else None;
    }
    var c := ms.capture[i];
    assert c == ms.Caps()[i];
    if c.len == UNFINISHED { return None; }
    if c.len == POSITION { return Some(Digits(c.init + 1)); }
    return Some(ms.t.src[c.init..c.init + c.len]);
  }

  /** push_captures */
  method PushCaptures(ms: MatchState, whole: bool, s: nat, e: nat) returns (r: Option<seq<string>>)
    requires s <= e && ms.Fit(e)
    ensures r == Captures(ms.t, ms.Caps(), whole, s, e)
  {
    var n := if ms.level == 0 && whole then 1 else ms.level;
    var out := [];
    for i := 0 to n
      invariant CaptureTexts(ms.t, ms.Caps(), i, s, e) == Some(out)
    {
      var c := PushOneCapture(ms, i, s, e);
      if c.None? {
        NoneStays(ms.t, ms.Caps(), i + 1, n, s, e);
        return None;
      }
      out := out + [c.value];
    }
    r := Some(out);
  }

  lemma {:induction false} NoneStays(t: Subject, caps: seq<Cap>, m: nat, n: nat, s: nat, e: nat)
    requires s <= e <= |t.src| && m <= n && CaptureTexts(t, caps, m, s, e).None?
    ensures CaptureTexts(t, caps, n, s, e).None?
    decreases n
  {
    if m < n { NoneStays(t, caps, m, n - 1, s, e); }
  }

  // ----- find and match -----

  datatype Found =
    | NotFound
    | Span(start: nat, end: nat, captures: seq<string>)
    | CaptureError(start: nat, end: nat)
    | FindError(error: Error)

  /** The leftmost match at or after `init` is at `s`, up to `e`. */
  ghost predicate Leftmost(t: Subject, init: nat, s: nat, e: nat) {
    LegalPattern(t) && init <= s <= e <= |t.src| && MatchAt(t, s).Some? && MatchAt(t, s).value.end == e &&
    (t.At(0) == '^' ==> s == init) && forall k :: init <= k < s ==> MatchAt(t, k).None?
  }

  /** `r` is the leftmost match at or after `init`, with its captures, or NotFound if there
      is none where the anchor allows one. */
  ghost predicate Finds(t: Subject, init: nat, whole: bool, r: Found)
    requires LegalPattern(t)
  {
    match r
    case FindError(_) => false
    case CaptureError(s, e) => Leftmost(t, init, s, e) && Captures(t, MatchAt(t, s).value.caps, whole, s, e) == None
    case Span(s, e, cs) => Leftmost(t, init, s, e) && Captures(t, MatchAt(t, s).value.caps, whole, s, e) == Some(cs)
    case NotFound =>
      forall k :: init <= k <= |t.src| && (t.At(0) == '^' ==> k == init) ==> MatchAt(t, k).None?
  }

  /** The matcher tried at one place after the other; `whole` is what distinguishes
      string.match from string.find. */
  method Find(t: Subject, init: nat, whole: bool) returns (r: Found)
    requires init <= |t.src|
    ensures LegalPattern(t) ==> Finds(t, init, whole, r)
  {
    var ms := new MatchState(t);
    var s := init;
    while true
      invariant init <= s <= |t.src| && (t.At(0) == '^' ==> s == init)
      invariant fresh(ms) && fresh(ms.capture) && ms.t == t && ms.Valid()
      invariant LegalPattern(t) ==> forall k :: init <= k < s ==> MatchAt(t, k).None?
      decreases |t.src| - s
    {
      var m := MatchFresh(ms, s);
      match m {
        case End(e) =>
          var cs := PushCaptures(ms, whole, s, e);
          return if cs.None? then CaptureError(s, e) else Span(s, e, cs.value);
        case Err(e) => return FindError(e);
        case Fail =>
      }
      if s == |t.src| || t.At(0) == '^' { return NotFound; }
      s := s + 1;
    }
  }

  // ----- gsub -----

  /** The text that the first character or escape of `news` stands for. */
  function ExpandOne(t: Subject, news: string, caps: seq<Cap>, s: nat, e: nat): Option<string>
    requires s <= e <= |t.src| && news != ""
  {
    if news[0] != '%' then Some([news[0]])
    else
      var c := if |news| > 1 then news[1] else NUL;
      if !Digit(c) then Some([c])
      else if c == '0' then Some(t.src[s..e])
      else CaptureText(t, caps, c as int - '1' as int, s, e)
  }

  function Expand(t: Subject, news: string, caps: seq<Cap>, s: nat, e: nat): Option<string>
    requires s <= e <= |t.src|
    decreases |news|
  {
    if news == "" then Some("")
    else
      var head := ExpandOne(t, news, caps, s, e);
      var tail := Expand(t, if news[0] == '%' && |news| > 1 then news[2..] else news[1..], caps, s, e);
      if head.None? || tail.None? then None else Some(head.value + tail.value)
  }

  method AddS(ms: MatchState, news: string, s: nat, e: nat) returns (r: Option<string>)
    requires s <= e && ms.Fit(e)
    ensures r == Expand(ms.t, news, ms.Caps(), s, e)
  {
    var b, i := "", 0;
    ghost var want := Expand(ms.t, news, ms.Caps(), s, e);
    assert news[0..] == news;
    assert want.Some? ==> b + want.value == want.value;
    while i < |news|
      invariant 0 <= i <= |news|
      invariant var rest := Expand(ms.t, news[i..], ms.Caps(), s, e);
        want == if rest.None? then None else Some(b + rest.value)
    {
      var piece, width := AddOne(ms, news[i..], s, e);
      if piece.None? { return None; }
      ExpandStep(ms.t, news, i, ms.Caps(), s, e, b, width);
      b := b + piece.value;
      i := i + width;
    }
    assert news[i..] == "" && b + "" == b;
    return Some(b);
  }

  lemma {:induction false} ExpandStep(t: Subject, news: string, i: nat, caps: seq<Cap>, s: nat, e: nat, b: string,
                                      width: nat)
    requires s <= e <= |t.src| && i < |news|
    requires width == if news[i] == '%' && i + 1 < |news| then 2 else 1
    ensures var head, all, tail :=
        ExpandOne(t, news[i..], caps, s, e), Expand(t, news[i..], caps, s, e),
        Expand(t, news[i + width..], caps, s, e);
      if head.None? || tail.None? then all.None?
      else all.Some? && b + all.value == b + head.value + tail.value
  {
    assert news[i..][width..] == news[i + width..];
    var head, tail := ExpandOne(t, news[i..], caps, s, e), Expand(t, news[i + width..], caps, s, e);
    if head.Some? && tail.Some? {
      assert b + (head.value + tail.value) == b + head.value + tail.value;
    }
  }

  method AddOne(ms: MatchState, news: string, s: nat, e: nat) returns (piece: Option<string>, width: nat)
    requires s <= e && ms.Fit(e) && news != ""
    ensures piece == ExpandOne(ms.t, news, ms.Caps(), s, e)
    ensures width == if news[0] == '%' && |news| > 1 then 2 else 1
  {
    if news[0] != '%' { return Some([news[0]]), 1; }
    var c := if 1 < |news| then news[1] else NUL;
    width := if 1 < |news| then 2 else 1;
    if !Digit(c) {
      piece := Some([c]);
    } else if c == '0' {
      piece := Some(ms.t.src[s..e]);
    } else {
      piece := PushOneCapture(ms, c as int - '1' as int, s, e);
    }
  }

  /** What substitution did with a stretch of the source: it kept one character, or
      it replaced a match by a text. */
  datatype Piece = Kept(from: nat) | Replaced(from: nat, to: nat, text: string)

  function PieceEnd(p: Piece): nat { if p.Kept? then p.from + 1 else p.to }

  /** The pieces cover [0, to) of the source, in order and without gap or overlap. */
  ghost predicate Covers(pieces: seq<Piece>, to: nat) {
    if pieces == [] then to == 0
    else
      var last := pieces[|pieces| - 1];
      last.from <= PieceEnd(last) == to && Covers(pieces[..|pieces| - 1], last.from)
  }

  ghost function Output(src: string, pieces: seq<Piece>): string {
    if pieces == [] then ""
    else
      var last := pieces[|pieces| - 1];
      Output(src, pieces[..|pieces| - 1]) +
      match last
      case Kept(k) => if k < |src| then [src[k]] else ""
      case Replaced(_, _, text) => text
  }

  ghost function Count(pieces: seq<Piece>): nat {
    if pieces == [] then 0
    else Count(pieces[..|pieces| - 1]) + if pieces[|pieces| - 1].Replaced? then 1 else 0
  }

  /** A replaced stretch is the match with priority where it starts. A kept character
      starts no match, or it follows an empty match that was replaced. */
  ghost predicate Justified(t: Subject, news: string, pieces: seq<Piece>, i: nat)
    requires i < |pieces| && LegalPattern(t)
  {
    match pieces[i]
    case Replaced(s, e, text) =>
      s <= e <= |t.src| && MatchAt(t, s).Some? && MatchAt(t, s).value.end == e &&
      Expand(t, news, MatchAt(t, s).value.caps, s, e) == Some(text)
    case Kept(k) =>
      k < |t.src| &&
      (MatchAt(t, k).None? ||
       (i > 0 && pieces[i - 1].Replaced? && pieces[i - 1].from == pieces[i - 1].to == k))
  }

  ghost predicate AllJustified(t: Subject, news: string, pieces: seq<Piece>)
    requires LegalPattern(t)
  {
    forall i :: 0 <= i < |pieces| ==> Justified(t, news, pieces, i)
  }

  /** The pieces account for the source up to `to`, the output and the count so far. */
  ghost predicate Accounts(t: Subject, news: string, pieces: seq<Piece>, to: nat, out: string, n: nat) {
    to <= |t.src| && Covers(pieces, to) && out == Output(t.src, pieces) && n == Count(pieces) &&
    ReplacesByItself(t.src, news, pieces) &&
    (LegalPattern(t) ==> AllJustified(t, news, pieces))
  }

  lemma {:induction false} AddPiece(t: Subject, news: string, pieces: seq<Piece>, to: nat, out: string, n: nat,
                                    p: Piece)
    requires Accounts(t, news, pieces, to, out, n) && p.from == to <= PieceEnd(p) <= |t.src|
    requires p.Replaced? && news == "%0" ==> p.text == t.src[to..p.to]
    requires LegalPattern(t) ==> Justified(t, news, pieces + [p], |pieces|)
    ensures Accounts(t, news, pieces + [p], PieceEnd(p),
                     out + (if p.Kept? then [t.src[to]] else p.text), n + if p.Kept? then 0 else 1)
  {
    assert (pieces + [p])[..|pieces|] == pieces;
    if LegalPattern(t) {
      forall i | 0 <= i <= |pieces|
        ensures Justified(t, news, pieces + [p], i)
      {
        if i < |pieces| { assert Justified(t, news, pieces, i); }
      }
    }
  }

  datatype Substituted = Text(text: string, count: nat) | SubError(error: Error)

  ghost predicate ReplacesByItself(src: string, news: string, pieces: seq<Piece>) {
    news == "%0" ==>
      forall i :: 0 <= i < |pieces| && pieces[i].Replaced? ==>
        pieces[i].from <= pieces[i].to <= |src| && pieces[i].text == src[pieces[i].from..pieces[i].to]
  }

  /** The match at `s` and the text that replaces it. */
  method SubstituteAt(ms: MatchState, news: string, s: nat) returns (r: Result, text: string)
    requires ms.Valid() && s <= |ms.t.src|
    modifies ms`level, ms`depth, ms.capture
    ensures ms.capture == old(ms.capture) && ms.Valid()
    ensures r.End? ==> s <= r.end <= |ms.t.src| && (news == "%0" ==> text == ms.t.src[s..r.end])
    ensures LegalPattern(ms.t) ==>
      match r
      case Fail => MatchAt(ms.t, s).None?
      case End(e) =>
        MatchAt(ms.t, s).Some? && MatchAt(ms.t, s).value.end == e &&
        Expand(ms.t, news, MatchAt(ms.t, s).value.caps, s, e) == Some(text)
      case Err(_) =>
        news != "%0"
  {
    text := "";
    r := MatchFresh(ms, s);
    if r.End? {
      ghost var e := r.end;
      if news == "%0" { ExpandWhole(ms.t, ms.Caps(), s, e); }
      var v := AddS(ms, news, s, r.end);
      if v.None? { r := Err(InvalidCapture); } else { text := v.value; }
    }
  }

  /** One turn of substitution at `s`: a match is replaced, and unless it moved the
      cursor one character is kept. `more` is false at the end of the source. */
  method GsubTurn(ms: MatchState, news: string, s: nat, b: string, n: nat, ghost pieces: seq<Piece>)
    returns (err: Option<Error>, s': nat, b': string, n': nat, more: bool, ghost pieces': seq<Piece>)
    requires ms.Valid() && Accounts(ms.t, news, pieces, s, b, n)
    modifies ms`level, ms`depth, ms.capture
    ensures ms.capture == old(ms.capture) && ms.Valid()
    ensures err.None? ==>
      Accounts(ms.t, news, pieces', s', b', n') && n <= n' <= n + 1 && |pieces'| <= |pieces| + 2 &&
      if more then s < s' else s' == |ms.t.src| == s
    ensures LegalPattern(ms.t) && news == "%0" ==> err.None?
  {
    s', b', n', pieces', more := s, b, n, pieces, true;
    var e, text := SubstituteAt(ms, news, s);
    if e.Err? { return Some(e.error), s', b', n', more, pieces'; }
    err := None;
    if e.End? {
      AddPiece(ms.t, news, pieces, s, b, n, Replaced(s, e.end, text));
      n', b', pieces' := n + 1, b + text, pieces + [Replaced(s, e.end, text)];
    }
    if e.End? && e.end > s {
      s' := e.end;
    } else if s < |ms.t.src| {
      AddPiece(ms.t, news, pieces', s, b', n', Kept(s));
      b', pieces', s' := b' + [ms.t.src[s]], pieces' + [Kept(s)], s + 1;
    } else {
      more := false;
    }
  }

  /** Substitutes at most `maxS` matches. The pieces account for the source up to
      `tail`; the rest is copied, either because there is none, or the limit was
      reached, or the pattern is anchored and was tried once. */
  method Gsub(t: Subject, news: string, maxS: int)
    returns (r: Substituted, ghost pieces: seq<Piece>, ghost tail: nat)
    ensures r.Text? ==>
      tail <= |t.src| && Covers(pieces, tail) &&
      r.text == Output(t.src, pieces) + t.src[tail..] && r.count == Count(pieces)
    ensures r.Text? ==> r.count <= |t.src| + 1 && (maxS >= 0 ==> r.count <= maxS)
    ensures r.Text? ==> tail == |t.src| || r.count >= maxS || (t.At(0) == '^' && |pieces| <= 2)
    ensures r.Text? && LegalPattern(t) ==> AllJustified(t, news, pieces)
    ensures r.Text? && news == "%0" ==> r.text == t.src
    ensures news == "%0" && LegalPattern(t) ==> r.Text?
  {
    pieces, tail := [], 0;
    var b, anchor := "", t.At(0) == '^';
    var n: nat := 0;
    var s: nat := 0;
    var ms := new MatchState(t);
    assert Accounts(t, news, pieces, s, b, n);
    var more := true;
    while n < maxS && more
      invariant fresh(ms) && fresh(ms.capture) && ms.t == t && ms.Valid()
      invariant n <= s + (if more then 0 else 1) && (0 < n ==> n <= maxS)
      invariant Accounts(t, news, pieces, s, b, n)
      invariant if more then anchor ==> pieces == [] else s == |t.src| || (anchor && |pieces| <= 2)
      decreases more, |t.src| - s
    {
      var err;
      err, s, b, n, more, pieces := GsubTurn(ms, news, s, b, n, pieces);
      if err.Some? { return SubError(err.value), pieces, s; }
      if anchor { more := false; }
    }
    tail := s;
    if news == "%0" { OutputIsSource(t.src, news, pieces, s); }
    r := Text(b + t.src[s..], n);
  }

  lemma {:induction false} ExpandWhole(t: Subject, caps: seq<Cap>, s: nat, e: nat)
    requires s <= e <= |t.src|
    ensures Expand(t, "%0", caps, s, e) == Some(t.src[s..e])
  {
    assert "%0"[2..] == "";
    assert Expand(t, "", caps, s, e) == Some("");
    assert t.src[s..e] + "" == t.src[s..e];
  }

  /** Pieces that reproduce their own source reproduce all of it. */
  lemma {:induction false} OutputIsSource(src: string, news: string, pieces: seq<Piece>, to: nat)
    requires news == "%0" && Covers(pieces, to) && to <= |src| && ReplacesByItself(src, news, pieces)
    ensures Output(src, pieces) == src[..to]
  {
    if pieces != [] {
      var last := pieces[|pieces| - 1];
      OutputIsSource(src, news, pieces[..|pieces| - 1], last.from);
      assert src[..to] == src[..last.from] + src[last.from..to];
    }
  }

  // ----- plain search -----

  predicate OccursAt(hay: string, needle: string, k: nat) {
    k + |needle| <= |hay| && hay[k..k + |needle|] == needle
  }

  lemma {:induction false} OccurrenceParts(hay: string, needle: string, k: nat)
    requires OccursAt(hay, needle, k) && needle != ""
    ensures hay[k] == needle[0] && hay[k + 1..k + |needle|] == needle[1..]
  {
    assert hay[k] == hay[k..k + |needle|][0];
    assert hay[k + 1..k + |needle|] == hay[k..k + |needle|][1..];
  }

  /** The first index in [from, to) that holds `c`, or `to`. */
  method MemChr(hay: string, from: nat, to: nat, c: char) returns (i: nat)
    requires from <= to <= |hay|
    ensures from <= i <= to && (i < to ==> hay[i] == c)
    ensures forall k :: from <= k < i ==> hay[k] != c
  {
    i := from;
    while i < to && hay[i] != c
      invariant from <= i <= to
      invariant forall k :: from <= k < i ==> hay[k] != c
    {
      i := i + 1;
    }
  }

  /** The leftmost occurrence of `needle`, skipping to its first character each time. */
  method LMemFind(hay: string, needle: string) returns (r: Option<nat>)
    ensures r.None? ==> forall k: nat :: !OccursAt(hay, needle, k)
    ensures r.Some? ==> OccursAt(hay, needle, r.value) && forall k: nat :: k < r.value ==> !OccursAt(hay, needle, k)
  {
    if |needle| == 0 { return Some(0); }
    if |needle| > |hay| { return None; }
    var from, to := 0, |hay| - (|needle| - 1);  // no occurrence starts at `to` or after
    while from < to
      invariant from <= to
      invariant forall k: nat :: k < from ==> !OccursAt(hay, needle, k)
    {
      var i := MemChr(hay, from, to, needle[0]);
      forall k: nat | k < i
        ensures !OccursAt(hay, needle, k)
      {
        if from <= k && OccursAt(hay, needle, k) { OccurrenceParts(hay, needle, k); }
      }
      if i == to { break; }
      if hay[i + 1..i + |needle|] == needle[1..] {
        assert hay[i..i + |needle|] == [hay[i]] + hay[i + 1..i + |needle|];
        return Some(i);
      }
      assert !OccursAt(hay, needle, i) by {
        if OccursAt(hay, needle, i) { OccurrenceParts(hay, needle, i); }
      }
      from := i + 1;
    }
    return None;
  }
}
