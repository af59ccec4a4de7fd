/** Header fields: which names the parser recognises, and the numbers it reads. */
module HttpHeaders {
  import opened HttpChars
  import opened HttpSteps
  import opened HttpRuns
  import opened HttpBodies

  // ----- names -----

  function LowerCase(name: string): (r: string)
    requires IsName(name)
    ensures |r| == |name|
  {
    if name == "" then "" else LowerCase(name[..|name| - 1]) + [Token(name[|name| - 1])]
  }

  predicate IsName(name: string) { forall i :: 0 <= i < |name| ==> IsToken(name[i]) }

  /** `s` is the start of the name `w`, but not all of it. */
  predicate Starts(s: string, w: string) { 0 < |s| < |w| && s == w[..|s|] }

  /** What is to be known of a field name after its characters `s`, in lower case. */
  function Looking(s: string): HeaderState {
    if s == "c" then C
    else if s == "co" then CO
    else if s == "con" then CON
    else if Starts(s, "connection") then MatchingConnection
    else if Starts(s, "proxy-connection") then MatchingProxyConnection
    else if Starts(s, "content-length") then MatchingContentLength
    else if Starts(s, "transfer-encoding") then MatchingTransferEncoding
    else if Starts(s, "upgrade") then MatchingUpgrade
    else if s == "connection" || s == "proxy-connection" then Connection
    else if s == "content-length" then ContentLength
    else if s == "transfer-encoding" then TransferEncoding
    else if s == "upgrade" then Upgrade
    else General
  }

  predicate Matching(h: HeaderState) {
    h.C? || h.CO? || h.CON? || h.MatchingConnection? || h.MatchingProxyConnection? || h.MatchingContentLength? ||
    h.MatchingTransferEncoding? || h.MatchingUpgrade?
  }

  /** One more character of a name that is looked for. */
  lemma {:induction false} StartsOn(s: string, c: char, w: string)
    ensures Starts(s + [c], w) <==> |s| + 1 < |w| && (s == "" || Starts(s, w)) && w[|s|] == c
    ensures s + [c] == w <==> |s| + 1 == |w| && (s == "" || Starts(s, w)) && w[|s|] == c
  {
    var t := s + [c];
    if |t| <= |w| && t == w[..|t|] {
      assert s == t[..|s|] == w[..|s|] && w[|s|] == t[|s|];
    }
    if |s| < |w| && s == w[..|s|] && w[|s|] == c {
      assert w[..|s| + 1] == s + [c];
    }
    assert w[..|w|] == w;
  }

  /** Two letters tell the names apart. */
  lemma {:induction false} Letters(s: string, w: string)
    requires (s == w || Starts(s, w)) && |w| > 3
    ensures s[0] == w[0] && (|s| > 3 ==> s[3] == w[3]) && (|s| > 1 ==> s[1] == w[1]) && (|s| > 2 ==> s[2] == w[2])
  {
  }

  ghost predicate Apart(s: string) {
    s != "" &&
    (Starts(s, "connection") || s == "connection" ==> s[0] == 'c' && (|s| > 3 ==> s[3] == 'n')) &&
    (Starts(s, "proxy-connection") || s == "proxy-connection" ==> s[0] == 'p') &&
    (Starts(s, "content-length") || s == "content-length" ==> s[0] == 'c' && (|s| > 3 ==> s[3] == 't')) &&
    (Starts(s, "transfer-encoding") || s == "transfer-encoding" ==> s[0] == 't') &&
    (Starts(s, "upgrade") || s == "upgrade" ==> s[0] == 'u')
  }

  lemma {:induction false} AreApart(s: string)
    requires s != ""
    ensures Apart(s)
  {
    if Starts(s, "connection") || s == "connection" { Letters(s, "connection"); }
    if Starts(s, "proxy-connection") || s == "proxy-connection" { Letters(s, "proxy-connection"); }
    if Starts(s, "content-length") || s == "content-length" { Letters(s, "content-length"); }
    if Starts(s, "transfer-encoding") || s == "transfer-encoding" { Letters(s, "transfer-encoding"); }
    if Starts(s, "upgrade") || s == "upgrade" { Letters(s, "upgrade"); }
  }

  ghost predicate Grows(s: string, c: char, w: string) {
    (Starts(s + [c], w) <==> |s| + 1 < |w| && Starts(s, w) && w[|s|] == c) &&
    (s + [c] == w <==> |s| + 1 == |w| && Starts(s, w) && w[|s|] == c)
  }

  lemma {:induction false} AllGrow(s: string, c: char)
    requires s != ""
    ensures Grows(s, c, "connection") && Grows(s, c, "proxy-connection") && Grows(s, c, "content-length")
    ensures Grows(s, c, "transfer-encoding") && Grows(s, c, "upgrade")
  {
    StartsOn(s, c, "connection");
    StartsOn(s, c, "proxy-connection");
    StartsOn(s, c, "content-length");
    StartsOn(s, c, "transfer-encoding");
    StartsOn(s, c, "upgrade");
  }

  predicate OneOf(s: string) {
    s == "connection" || s == "proxy-connection" || s == "content-length" || s == "transfer-encoding" || s == "upgrade"
  }

  lemma {:induction false} Cut(s: string, c: char)
    requires s != ""
    ensures s + [c] != "c" && (s + [c] == "co" ==> s == "c") && (s + [c] == "con" ==> s == "co")
  {
    assert (s + [c])[..|s|] == s && "co"[..1] == "c" && "con"[..2] == "co";
  }

  lemma {:induction false} NothingOn(s: string, c: char)
    requires s != "" && !Matching(Looking(s))
    ensures Looking(s + [c]) == General
  {
    AreApart(s);
    AllGrow(s, c);
    hide Starts;
    Cut(s, c);
    assert Looking(s + [c]) == General by { NoStart(s); }
  }

  lemma {:induction false} NoStart(s: string)
    requires s != "" && !Matching(Looking(s))
    ensures !Starts(s, "connection") && !Starts(s, "proxy-connection") && !Starts(s, "content-length")
    ensures !Starts(s, "transfer-encoding") && !Starts(s, "upgrade")
  {
  }

  /** No other name than `w` goes on from `s`. */
  ghost predicate Only(s: string, w: string) {
    Starts(s, w) && (w != "connection" ==> !Starts(s, "connection")) &&
    (w != "proxy-connection" ==> !Starts(s, "proxy-connection")) &&
    (w != "content-length" ==> !Starts(s, "content-length")) &&
    (w != "transfer-encoding" ==> !Starts(s, "transfer-encoding")) && (w != "upgrade" ==> !Starts(s, "upgrade"))
  }

  lemma {:induction false} OnlyOne(s: string, w: string)
    requires Starts(s, w) && OneOf(w) && (s[0] == 'c' ==> |s| > 3)
    ensures Only(s, w)
  {
    AreApart(s);
    Letters(s, w);
  }

  function Found(w: string): HeaderState
    requires OneOf(w)
  {
    if w == "content-length" then ContentLength
    else if w == "transfer-encoding" then TransferEncoding
    else if w == "upgrade" then Upgrade
    else Connection
  }

  function Finding(w: string): HeaderState
    requires OneOf(w)
  {
    if w == "connection" then MatchingConnection
    else if w == "proxy-connection" then MatchingProxyConnection
    else if w == "content-length" then MatchingContentLength
    else if w == "transfer-encoding" then MatchingTransferEncoding
    else MatchingUpgrade
  }

  lemma {:induction false} WordOn(s: string, c: char, w: string)
    requires OneOf(w) && Only(s, w) && s + [c] != "c" && s + [c] != "co" && s + [c] != "con"
    ensures Looking(s + [c]) == Match(w, |s|, c, Finding(w), Found(w), General)
  {
    AllGrow(s, c);
    hide Starts;
    assert |s| < |w| by { Shorter(s, w); }
  }

  lemma {:induction false} Shorter(s: string, w: string)
    requires Starts(s, w)
    ensures 0 < |s| < |w|
  {
  }

  lemma {:induction false} ShortOn(s: string, c: char)
    requires s == "c" || s == "co" || s == "con"
    ensures Looking(s + [c]) ==
      if s == "c" then (if c == 'o' then CO else General)
      else if s == "co" then (if c == 'n' then CON else General)
      else if c == 'n' then MatchingConnection
      else if c == 't' then MatchingContentLength
      else General
  {
    AreApart(s);
    AreApart(s + [c]);
    AllGrow(s, c);
  }

  /** The name that is looked for after `s`, if more than three letters settle it. */
  lemma {:induction false} TheWord(s: string) returns (w: string)
    requires Matching(Looking(s)) && s != "c" && s != "co" && s != "con"
    ensures OneOf(w) && Only(s, w) && Finding(w) == Looking(s)
  {
    w := if Starts(s, "connection") then "connection"
         else if Starts(s, "proxy-connection") then "proxy-connection"
         else if Starts(s, "content-length") then "content-length"
         else if Starts(s, "transfer-encoding") then "transfer-encoding"
         else "upgrade";
    AreApart(s);
    if s[0] == 'c' { ThreeLetters(s, w); }
    OnlyOne(s, w);
  }

  lemma {:induction false} ThreeLetters(s: string, w: string)
    requires Starts(s, w) && (w == "connection" || w == "content-length") && s != "c" && s != "co" && s != "con"
    ensures |s| > 3
  {
    assert w[..1] == "c" && w[..2] == "co" && w[..3] == "con";
  }

  lemma {:induction false} LooksOn(s: string, ch: char, i: nat)
    requires s != "" && IsToken(ch) && (Matching(Looking(s)) ==> i == |s| - 1)
    ensures var r := FieldChar(Looking(s), i, ch);
      r.0 == Looking(s + [Token(ch)]) && (Matching(r.0) ==> r.1 == |s|)
  {
    var c := Token(ch);
    if !Matching(Looking(s)) {
      NothingOn(s, c);
    } else if s == "c" || s == "co" || s == "con" {
      ShortOn(s, c);
    } else {
      var w := TheWord(s);
      Cut(s, c);
      WordOn(s, c, w);
      hide Starts, Looking;
    }
  }

  /** All but what is known of the header line is the same. */
  predicate Alike(p: Parser, q: Parser) { q == p.(state := q.state, headerState := q.headerState, index := q.index) }

  /** The parser has read `name` as a field name. */
  predicate Reading(p: Parser, name: string)
    requires IsName(name) && name != ""
  {
    p.state == InField && p.headerState == Looking(LowerCase(name)) &&
    (Matching(p.headerState) ==> p.index == |name| - 1)
  }

  lemma {:induction false} FirstLetter(p: Parser, c: char)
    requires Valid(p) && p.state == At(FieldStart) && IsToken(c)
    ensures Step(p, c).Effect? && !Step(p, c).again && !Step(p, c).stop
    ensures Reading(Step(p, c).p, [c]) && Step(p, c).events == [Data(OnHeaderField, [c])]
    ensures Alike(p, Step(p, c).p)
  {
    hide Looking;
    assert LowerCase([c]) == [Token(c)];
    OneLetter(Token(c));
  }

  lemma {:induction false} OneLetter(c: char)
    ensures Looking([c]) == NameStart(c)
  {
    AreApart([c]);
    assert [c] == "c" <==> c == 'c';
  }

  lemma {:induction false} NextLetter(p: Parser, name: string, c: char)
    requires Valid(p) && IsName(name) && name != "" && Reading(p, name) && IsToken(c)
    ensures Step(p, c).Effect? && !Step(p, c).again && !Step(p, c).stop
    ensures IsName(name + [c]) && Reading(Step(p, c).p, name + [c]) && Step(p, c).events == [Data(OnHeaderField, [c])]
    ensures Alike(p, Step(p, c).p)
  {
    hide Looking, FieldChar;
    assert (name + [c])[..|name|] == name;
    LooksOn(LowerCase(name), c, p.index);
  }

  /** Reading a field name. */
  lemma {:induction false} ReadsName(p: Parser, name: string) returns (q: Parser)
    requires Valid(p) && p.state == At(FieldStart) && IsName(name) && name != ""
    ensures Leads(p, name, "", [], q) && Valid(q) && Reading(q, name) && Alike(p, q)
    decreases |name|
  {
    hide Run, Leads, Step, Valid;
    var n := |name| - 1;
    var c := name[n];
    assert name == name[..n] + [c];
    if n == 0 {
      FirstLetter(p, c);
      OneByte(p, c);
      q := Step(p, c).p;
      NameByte(p, c, q);
      assert name == [c];
    } else {
      var r := ReadsName(p, name[..n]);
      NextLetter(r, name[..n], c);
      OneByte(r, c);
      q := Step(r, c).p;
      NameByte(r, c, q);
      LeadsSilently(p, name[..n], "", [], r, [c], q);
    }
  }

  lemma {:induction false} NameByte(p: Parser, c: char, q: Parser)
    requires Leads(p, [c], BodyOf([Data(OnHeaderField, [c])]), Notices([Data(OnHeaderField, [c])]), q)
    ensures Leads(p, [c], "", [], q) && Valid(p) && Valid(q)
  {
    hide Run;
    ReadOne(Data(OnHeaderField, [c]));
  }

  /** The parser knows a field by its name, in any case: exactly these names matter. */
  lemma {:induction false} KnowsName(p: Parser, name: string, pad: string) returns (q: Parser)
    requires Valid(p) && p.state == At(FieldStart) && IsName(name) && name != "" && IsPadding(pad)
    ensures Leads(p, name + ":" + pad, "", [], q) && Valid(q) && q.state == At(ValueDiscardWs) && Alike(p, q)
    ensures q.headerState.ContentLength? <==> LowerCase(name) == "content-length"
    ensures q.headerState.TransferEncoding? <==> LowerCase(name) == "transfer-encoding"
    ensures q.headerState.Connection? <==> LowerCase(name) == "connection" || LowerCase(name) == "proxy-connection"
    ensures q.headerState.Upgrade? <==> LowerCase(name) == "upgrade"
    ensures NameState(q.headerState)
  {
    hide Run, Leads, Looking;
    var r := ReadsName(p, name);
    assert NameState(r.headerState);
    hide Valid;
    Colon(r);
    q := r.(state := At(ValueDiscardWs));
    LeadsSilently(p, name, "", [], r, ":", q);
    Padded(q, pad);
    LeadsSilently(p, name + ":", "", [], q, pad, q);
    Known(LowerCase(name));
  }

  /** Space in front of a value. */
  predicate IsPadding(pad: string) { forall i :: 0 <= i < |pad| ==> pad[i] == ' ' || pad[i] == '\t' }

  lemma {:induction false} Padded(p: Parser, pad: string)
    requires Valid(p) && p.state == At(ValueDiscardWs) && IsPadding(pad)
    ensures Leads(p, pad, "", [], p)
    decreases |pad|
  {
    hide Run, Leads, Valid;
    if pad == "" {
      Nowhere(p);
    } else {
      assert Step(p, pad[0]) == Effect(p, [], false, false);
      OneByte(p, pad[0]);
      Padded(p, pad[1..]);
      LeadsSilently(p, [pad[0]], "", [], p, pad[1..], p);
      assert [pad[0]] + pad[1..] == pad;
    }
  }

  lemma {:induction false} Colon(p: Parser)
    requires Valid(p) && p.state == InField
    ensures Leads(p, ":", "", [], p.(state := At(ValueDiscardWs))) && Valid(p.(state := At(ValueDiscardWs)))
  {
    hide Run;
    OneByte(p, ':');
  }

  lemma {:induction false} Known(s: string)
    requires s != ""
    ensures Looking(s).ContentLength? <==> s == "content-length"
    ensures Looking(s).TransferEncoding? <==> s == "transfer-encoding"
    ensures Looking(s).Connection? <==> s == "connection" || s == "proxy-connection"
    ensures Looking(s).Upgrade? <==> s == "upgrade"
    ensures !Looking(s).TokenStart?
  {
    AreApart(s);
  }
}
