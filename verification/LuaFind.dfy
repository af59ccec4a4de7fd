/** string.find and string.match of lib_string.c as they are called: the start position,
    the choice between the plain search and the matcher, and when the two agree. */
module LuaFind {
  import opened LuaPattern
  import opened LuaMatch
  import opened LuaString

  const SPECIALS := "^$*+?.([%-"

  // ----- the start position -----

  /** posrelat: a negative position counts from the end. */
  function PosRelat(pos: int, len: nat): nat {
    var p := if pos < 0 then pos + len + 1 else pos;
    if p >= 0 then p else 0
  }

  /** Where the search begins, from the position that the caller gives. */
  function InitOf(pos: int, len: nat): (init: nat) {
    var init := PosRelat(pos, len) - 1;
    if init < 0 then 0 else if init > len then len else init
  }

  /** Position 1 is the first character and -1 the last; positions outside of the source
      mean its nearest end. */
  lemma {:induction false} InitIs(pos: int, len: nat)
    ensures InitOf(pos, len) <= len
    ensures 1 <= pos <= len + 1 ==> InitOf(pos, len) == pos - 1
    ensures 1 <= -pos <= len ==> InitOf(pos, len) == len + pos
    ensures pos > len ==> InitOf(pos, len) == len
    ensures pos == 0 || pos < 0 - len ==> InitOf(pos, len) == 0
  {
  }

  // ----- patterns without special characters -----

  /** The length of the pattern as a C string. */
  function CLength(pat: string): (n: nat)
    ensures n <= |pat| && (n < |pat| ==> pat[n] == NUL) && forall k :: 0 <= k < n ==> pat[k] != NUL
    decreases |pat|
  {
    if pat == "" || pat[0] == NUL then 0 else 1 + CLength(pat[1..])
  }

  /** strpbrk finds no special character: it only looks up to a NUL. */
  predicate NoSpecials(pat: string) { forall k :: 0 <= k < CLength(pat) ==> pat[k] !in SPECIALS }

  /** A pattern that only stands for itself. */
  predicate Literal(pat: string) {
    NoSpecials(pat) && forall k :: 0 <= k < |pat| ==> pat[k] != NUL && pat[k] != ')'
  }

  /** The characters of the pattern from `i` up to `n`. */
  function Chars(pat: string, i: nat, n: nat): Pattern
    requires n <= |pat|
    decreases n - i
  {
    if i >= n then Done
    else Then(if pat[i] == ')' then Close else Set(i, i + 1, Once), Chars(pat, i + 1, n))
  }

  /** What such a pattern parses to: the characters up to a NUL, and closing brackets. */
  lemma {:induction false} CharsParsed(t: Subject, i: nat)
    requires NoSpecials(t.pat) && i <= CLength(t.pat)
    ensures t.Parse(i) == Some(Chars(t.pat, i, CLength(t.pat)))
    decreases |t.pat| - i
  {
    var n := CLength(t.pat);
    if i < n {
      var c := t.pat[i];
      assert c !in SPECIALS && (i + 1 < n ==> t.pat[i + 1] !in SPECIALS);
      assert SPECIALS[0] == '^' && SPECIALS[1] == '$' && SPECIALS[2] == '*' && SPECIALS[3] == '+' && SPECIALS[4] == '?';
      assert SPECIALS[5] == '.' && SPECIALS[6] == '(' && SPECIALS[7] == '[' && SPECIALS[8] == '%' && SPECIALS[9] == '-';
      CharsParsed(t, i + 1);
    }
  }

  lemma {:induction false} CharsWellFormed(pat: string, i: nat, n: nat)
    requires n <= |pat|
    ensures WellFormed(Chars(pat, i, n), []) <==> forall k :: i <= k < n ==> pat[k] != ')'
    ensures Nesting(Chars(pat, i, n)) == 0 <==> forall k :: i <= k < n ==> pat[k] != ')'
    decreases n - i
  {
    if i < n { CharsWellFormed(pat, i + 1, n); }
  }

  /** Without special characters, exactly a closing bracket makes a pattern illegal. */
  lemma {:induction false} PlainLegal(t: Subject)
    requires NoSpecials(t.pat)
    ensures t.At(0) != '^' && (LegalPattern(t) <==> forall k :: 0 <= k < CLength(t.pat) ==> t.pat[k] != ')')
  {
    assert SPECIALS[0] == '^';
    if CLength(t.pat) > 0 { assert t.pat[0] !in SPECIALS; }
    CharsParsed(t, 0);
    CharsWellFormed(t.pat, 0, CLength(t.pat));
  }

  /** The search for characters finds them where they stand, and nowhere else. */
  lemma {:induction false} CharsMatched(t: Subject, i: nat, s: nat)
    requires NoSpecials(t.pat) && i <= CLength(t.pat) && s <= |t.src|
    requires forall k :: i <= k < CLength(t.pat) ==> t.pat[k] != ')'
    ensures var n, p := CLength(t.pat), Chars(t.pat, i, CLength(t.pat));
      WellFormed(p, []) && Subject.InText(p) &&
      t.First(p, s, []) == if OccursAt(t.src, t.pat[i..n], s) then Some(Out(s + n - i, [])) else None
    decreases |t.pat| - i
  {
    var n := CLength(t.pat);
    assert Flags([]) == [];
    CharsWellFormed(t.pat, i, n);
    CharsInText(t.pat, i, n);
    if i < n {
      assert t.pat[i] !in SPECIALS;
      assert SPECIALS[5] == '.' && SPECIALS[7] == '[' && SPECIALS[8] == '%';
      assert t.AdmitsAt(s, i, i + 1) <==> s < |t.src| && t.src[s] == t.pat[i];
      if s < |t.src| { CharsMatched(t, i + 1, s + 1); }
      OccursNext(t.src, t.pat[i..n], s);
      assert t.pat[i..n][1..] == t.pat[i + 1..n];
    } else {
      assert t.pat[i..n] == "";
    }
  }

  lemma {:induction false} CharsInText(pat: string, i: nat, n: nat)
    requires n <= |pat|
    ensures Subject.InText(Chars(pat, i, n))
    decreases n - i
  {
    if i < n { CharsInText(pat, i + 1, n); }
  }

  lemma {:induction false} OccursNext(hay: string, needle: string, s: nat)
    requires needle != ""
    ensures OccursAt(hay, needle, s) <==> s < |hay| && hay[s] == needle[0] && OccursAt(hay, needle[1..], s + 1)
  {
    if OccursAt(hay, needle, s) { OccurrenceParts(hay, needle, s); }
    if s < |hay| && hay[s] == needle[0] && OccursAt(hay, needle[1..], s + 1) {
      assert hay[s..s + |needle|] == [hay[s]] + hay[s + 1..s + |needle|];
    }
  }

  /** For a pattern without special characters, the matcher finds at a place what is in
      front of a NUL. */
  lemma {:induction false} PlainMatch(t: Subject, s: nat)
    requires NoSpecials(t.pat) && LegalPattern(t) && s <= |t.src|
    ensures MatchAt(t, s) ==
      if OccursAt(t.src, t.pat[..CLength(t.pat)], s) then Some(Out(s + CLength(t.pat), [])) else None
  {
    PlainLegal(t);
    CharsParsed(t, 0);
    CharsMatched(t, 0, s);
    assert t.pat[0..CLength(t.pat)] == t.pat[..CLength(t.pat)];
  }

  /** The matcher accepts the pattern and finds it exactly where the plain search does. */
  ghost predicate SameAsPlain(src: string, pat: string) {
    LegalPattern(Subject(src, pat)) &&
    forall s: nat {:trigger OccursAt(src, pat, s)} :: s <= |src| ==>
      MatchAt(Subject(src, pat), s) == if OccursAt(src, pat, s) then Some(Out(s + |pat|, [])) else None
  }

  lemma {:induction false} LiteralSame(src: string, pat: string)
    requires Literal(pat)
    ensures SameAsPlain(src, pat)
  {
    var t := Subject(src, pat);
    assert CLength(pat) == |pat|;
    PlainLegal(t);
    forall s: nat {:trigger OccursAt(src, pat, s)} | s <= |src|
      ensures MatchAt(t, s) == if OccursAt(src, pat, s) then Some(Out(s + |pat|, [])) else None
    {
      PlainMatch(t, s);
      assert pat[..|pat|] == pat;
    }
  }

  /** string.find takes the plain search as a fast form of the matcher if the pattern has no
      special character. That is right, for all sources, exactly if the pattern has neither
      a closing bracket nor a NUL: the first is an error of the matcher, and at the second it
      stops. */
  lemma {:induction false} PlainAgrees(pat: string)
    requires NoSpecials(pat)
    ensures (forall src: string {:trigger SameAsPlain(src, pat)} :: SameAsPlain(src, pat)) <==> Literal(pat)
  {
    if Literal(pat) {
      forall src: string {:trigger SameAsPlain(src, pat)} | true ensures SameAsPlain(src, pat) {
        LiteralSame(src, pat);
      }
    } else {
      Disagrees(pat);
    }
  }

  lemma {:induction false} Disagrees(pat: string)
    requires NoSpecials(pat) && !Literal(pat)
    ensures !SameAsPlain(pat[..CLength(pat)], pat)
  {
    var n := CLength(pat);
    var t := Subject(pat[..n], pat);
    PlainLegal(t);
    if LegalPattern(t) {
      assert n < |pat|;
      PlainMatch(t, 0);
      assert pat[..n][0..0 + n] == pat[..n];
      assert OccursAt(pat[..n], pat[..n], 0) && !OccursAt(pat[..n], pat, 0);
    }
  }

  // ----- the functions -----

  /** The leftmost occurrence at or after `init` is at `s`. */
  ghost predicate LeftmostPlain(src: string, pat: string, init: nat, s: nat) {
    init <= s && OccursAt(src, pat, s) && forall k: nat :: init <= k < s ==> !OccursAt(src, pat, k)
  }

  lemma {:induction false} OccursLater(src: string, pat: string, init: nat, k: nat)
    requires init <= |src|
    ensures OccursAt(src[init..], pat, k) <==> OccursAt(src, pat, init + k)
  {
    if k + |pat| <= |src| - init { assert src[init..][k..k + |pat|] == src[init + k..init + k + |pat|]; }
  }

  ghost predicate FindsPlain(src: string, pat: string, init: nat, r: Found) {
    match r
    case Span(s, e, cs) => LeftmostPlain(src, pat, init, s) && e == s + |pat| && cs == []
    case NotFound => forall k: nat :: init <= k ==> !OccursAt(src, pat, k)
    case _ => false
  }

  method FindPlain(src: string, pat: string, init: nat) returns (r: Found)
    requires init <= |src|
    ensures FindsPlain(src, pat, init, r)
  {
    var i := LMemFind(src[init..], pat);
    forall k: nat | init <= k
      ensures OccursAt(src[init..], pat, k - init) <==> OccursAt(src, pat, k)
    {
      OccursLater(src, pat, init, k - init);
    }
    r := if i.None? then NotFound else Span(init + i.value, init + i.value + |pat|, []);
  }

  /** What the plain search finds is what the matcher would find. */
  lemma {:induction false} PlainFinds(src: string, pat: string, init: nat, r: Found)
    requires Literal(pat) && init <= |src| && FindsPlain(src, pat, init, r)
    ensures LegalPattern(Subject(src, pat)) && Finds(Subject(src, pat), init, false, r)
  {
    var t := Subject(src, pat);
    LiteralSame(src, pat);
    PlainLegal(t);
    forall k | init <= k <= |src| && !OccursAt(src, pat, k)
      ensures MatchAt(t, k).None?
    {
      assert !OccursAt(src, pat, k as nat);
    }
    hide LegalPattern, MatchAt, NoSpecials;
    if r.Span? {
      assert MatchAt(t, r.start) == Some(Out(r.start + |pat|, []));
      assert Captures(t, [], false, r.start, r.end) == Some([]);
    }
  }

  /** string.find: plain, if that is asked for or the pattern has no special character. */
  method StrFind(src: string, pat: string, pos: int, plain: bool) returns (r: Found)
    ensures var init := InitOf(pos, |src|);
      if plain || NoSpecials(pat) then FindsPlain(src, pat, init, r)
      else LegalPattern(Subject(src, pat)) ==> Finds(Subject(src, pat), init, false, r)
    ensures Literal(pat) ==>
      LegalPattern(Subject(src, pat)) && Finds(Subject(src, pat), InitOf(pos, |src|), false, r)
  {
    InitIs(pos, |src|);
    var init := InitOf(pos, |src|);
    if plain || NoSpecials(pat) {
      r := FindPlain(src, pat, init);
      if Literal(pat) { PlainFinds(src, pat, init, r); }
    } else {
      r := Find(Subject(src, pat), init, false);
    }
  }

  /** string.match */
  method StrMatch(src: string, pat: string, pos: int) returns (r: Found)
    ensures LegalPattern(Subject(src, pat)) ==> Finds(Subject(src, pat), InitOf(pos, |src|), true, r)
  {
    r := Find(Subject(src, pat), InitOf(pos, |src|), true);
  }
}
