/** The Lua pattern language of lib_string.c: its character classes, its grammar,
    a declarative meaning for patterns (which repetition counts a match may choose
    and which choice has priority), and the backtracking search that finds the
    first choice. Strings are sequences of `char`; reading a pattern past its end
    gives the terminating NUL of a C string. */
module LuaPattern {

  datatype Option<+T> = None | Some(value: T)

  const NUL: char := '\0'
  const MAX_CAPTURES: nat := 32
  const MAX_DEPTH: nat := 200
  const UNFINISHED: int := -1
  const POSITION: int := -2

  // ----- character classes -----

  /** The ten letters that name a class, with the table of lj_char.c. */
  function NamedClass(letter: char, c: char): Option<bool> {
    match letter
    case 'a' => Some(Alpha(c))
    case 'c' => Some(c < ' ' || c == '\U{7f}')
    case 'd' => Some(Digit(c))
    case 'g' => Some('!' <= c <= '~')
    case 'l' => Some('a' <= c <= 'z')
    case 'p' => Some('!' <= c <= '~' && !Alpha(c) && !Digit(c))
    case 's' => Some(c == ' ' || '\U{9}' <= c <= '\U{d}')
    case 'u' => Some('A' <= c <= 'Z')
    case 'w' => Some(Alpha(c) || Digit(c))
    case 'x' => Some(Digit(c) || 'a' <= c <= 'f' || 'A' <= c <= 'F')
    case _ => None
  }

  predicate Alpha(c: char) { 'a' <= c <= 'z' || 'A' <= c <= 'Z' }

  predicate Digit(c: char) { '0' <= c <= '9' }

  /** An upper-case class letter means the complement of the lower-case one;
      anything that names no class stands for itself. */
  predicate InClass(c: char, cl: char) {
    if '@' <= cl <= '\U{7f}' then
      var letter := if cl < '`' then (cl as int + 32) as char else cl;
      match NamedClass(letter, c)
      case Some(t) => if cl < '`' then !t else t
      case None =>
        if cl == 'z' then c == NUL else if cl == 'Z' then c != NUL else cl == c
    else
      cl == c
  }

  // ----- patterns -----

  datatype Rep = Once | Opt | Star | Plus | Lazy

  /** A set of characters is the slice [at, end) of the pattern text. */
  datatype Item =
    | Set(at: nat, end: nat, rep: Rep)
    | Open(position: bool)
    | Close
    | Back(digit: char)
    | Balance(open: char, shut: char)
    | Frontier(at: nat, end: nat)

  datatype Pattern = Done | AtEnd | Then(item: Item, rest: Pattern)

  /** A capture: where it starts and how long it is, or why it has no length. */
  datatype Cap = Cap(init: int, len: int)

  /** A completed match: where it ends and what was captured. */
  datatype Out = Out(end: nat, caps: seq<Cap>)

  function Flags(caps: seq<Cap>): (open: seq<bool>)
    ensures |open| == |caps|
    ensures forall i :: 0 <= i < |caps| ==> open[i] == (caps[i].len == UNFINISHED)
  {
    seq(|caps|, i requires 0 <= i < |caps| => caps[i].len == UNFINISHED)
  }

  function LastTrue(open: seq<bool>): (l: int)
    ensures -1 <= l < |open|
    ensures l >= 0 ==> open[l]
    ensures forall j :: l < j < |open| ==> !open[j]
  {
    if open == [] then -1
    else if open[|open| - 1] then |open| - 1
    else LastTrue(open[..|open| - 1])
  }

  /** Captures are opened and closed in the same order on every path through a
      pattern, so whether it is well formed does not depend on the source text. */
  predicate WellFormed(p: Pattern, open: seq<bool>)
    decreases p
  {
    match p
    case Done => true
    case AtEnd => true
    case Then(Open(pos), rest) => |open| < MAX_CAPTURES && WellFormed(rest, open + [!pos])
    case Then(Close, rest) =>
      var l := LastTrue(open);
      l >= 0 && WellFormed(rest, open[l := false])
    case Then(Back(d), rest) =>
      var l := d as int - '1' as int;
      0 <= l < |open| && !open[l] && WellFormed(rest, open)
    case Then(_, rest) => WellFormed(rest, open)
  }

  /** How many items of a pattern are matched by a nested call. */
  function Nesting(p: Pattern): nat {
    match p
    case Then(Set(_, _, rep), rest) => (if rep.Once? then 0 else 1) + Nesting(rest)
    case Then(Open(_), rest) => 1 + Nesting(rest)
    case Then(Close, rest) => 1 + Nesting(rest)
    case Then(_, rest) => Nesting(rest)
    case _ => 0
  }

  /** A source text together with a pattern text. */
  datatype Subject = Subject(src: string, pat: string) {

    function At(i: nat): char { if i < |pat| then pat[i] else NUL }

    function SrcAt(i: nat): char { if i < |src| then src[i] else NUL }

    // ----- syntax -----

    /** The position of the `]` that closes a bracket set, read from `i` on. */
    function BracketEnd(i: nat): (r: Option<nat>)
      ensures r.Some? ==> i < r.value < |pat|
      decreases |pat| - i
    {
      if At(i) == NUL then None
      else
        var j := if At(i) == '%' && At(i + 1) != NUL then i + 2 else i + 1;
        if At(j) == ']' then Some(j) else BracketEnd(j)
    }

    /** One past the single-character item that starts at `i`. */
    function ClassEnd(i: nat): (r: Option<nat>)
      requires i < |pat|
      ensures r.Some? ==> i < r.value <= |pat|
    {
      if At(i) == '%' then if At(i + 1) == NUL then None else Some(i + 2)
      else if At(i) == '[' then
        match BracketEnd(if At(i + 1) == '^' then i + 2 else i + 1)
        case Some(j) => Some(j + 1)
        case None => None
      else Some(i + 1)
    }

    function RepAt(i: nat): Rep {
      match At(i)
      case '?' => Opt
      case '*' => Star
      case '+' => Plus
      case '-' => Lazy
      case _ => Once
    }

    function AfterRep(i: nat): nat { if RepAt(i).Once? then i else i + 1 }

    /** The item that starts at `i` and the position after it. */
    function ParseItem(i: nat): (r: Option<(Item, nat)>)
      requires i < |pat|
      ensures r.Some? ==> i < r.value.1 <= |pat|
    {
      if At(i) == '(' then
        if At(i + 1) == ')' then Some((Open(true), i + 2)) else Some((Open(false), i + 1))
      else if At(i) == ')' then Some((Close, i + 1))
      else if At(i) == '%' && At(i + 1) == 'b' then
        if At(i + 2) == NUL || At(i + 3) == NUL then None
        else Some((Balance(At(i + 2), At(i + 3)), i + 4))
      else if At(i) == '%' && At(i + 1) == 'f' then
        if At(i + 2) != '[' then None
        else
          match ClassEnd(i + 2)
          case Some(e) => Some((Frontier(i + 2, e), e))
          case None => None
      else if At(i) == '%' && Digit(At(i + 1)) then Some((Back(At(i + 1)), i + 2))
      else
        match ClassEnd(i)
        case Some(e) => Some((Set(i, e, RepAt(e)), AfterRep(e)))
        case None => None
    }

    /** The pattern written from position `i` on, or None when it has a syntax error. */
    function Parse(i: nat): Option<Pattern>
      decreases |pat| - i
    {
      if At(i) == NUL then Some(Done)
      else if At(i) == '$' && At(i + 1) == NUL then Some(AtEnd)
      else
        match ParseItem(i)
        case None => None
        case Some((item, j)) =>
          match Parse(j)
          case None => None
          case Some(rest) => Some(Then(item, rest))
    }

    // ----- sets, balanced text and back references -----

    /** Does a member of the bracket set, written from `q` up to `ec`, admit `c`? */
    predicate Member(c: char, q: nat, ec: nat)
      decreases ec - q
    {
      q < ec &&
      if At(q) == '%' then InClass(c, At(q + 1)) || Member(c, q + 2, ec)
      else if At(q + 1) == '-' && q + 2 < ec then At(q) <= c <= At(q + 2) || Member(c, q + 3, ec)
      else At(q) == c || Member(c, q + 1, ec)
    }

    predicate InBracket(c: char, i: nat, ec: nat) {
      if At(i + 1) == '^' then !Member(c, i + 2, ec) else Member(c, i + 1, ec)
    }

    /** Does the single-character item [i, end) admit `c`? */
    predicate Admits(c: char, i: nat, end: nat)
      requires i < end
    {
      match At(i)
      case '.' => true
      case '%' => InClass(c, At(i + 1))
      case '[' => InBracket(c, i, end - 1)
      case _ => At(i) == c
    }

    predicate AdmitsAt(s: nat, i: nat, end: nat)
      requires i < end
    {
      s < |src| && Admits(src[s], i, end)
    }

    /** How many characters from `s` on the item admits. */
    function Run(s: nat, i: nat, end: nat): (n: nat)
      requires i < end && s <= |src|
      ensures s + n <= |src|
      ensures forall k :: s <= k < s + n ==> AdmitsAt(k, i, end)
      ensures !AdmitsAt(s + n, i, end)
      decreases |src| - s
    {
      if AdmitsAt(s, i, end) then 1 + Run(s + 1, i, end) else 0
    }

    /** Scanning from `s` with `open` brackets pending: one past the bracket that
        closes the last of them. Closing is tested first, as it must be when both
        brackets are the same character. */
    function Closing(s: nat, b: char, e: char, open: nat): (r: Option<nat>)
      requires open > 0
      ensures r.Some? ==> s < r.value <= |src|
      decreases |src| - s
    {
      if s >= |src| then None
      else if src[s] == e then if open == 1 then Some(s + 1) else Closing(s + 1, b, e, open - 1)
      else Closing(s + 1, b, e, if src[s] == b then open + 1 else open)
    }

    function BalanceEnd(s: nat, b: char, e: char): (r: Option<nat>)
      requires s <= |src|
      ensures r.Some? ==> s < r.value <= |src|
    {
      if s == |src| || src[s] != b then None else Closing(s + 1, b, e, 1)
    }

    predicate AtFrontier(s: nat, i: nat, end: nat)
      requires i < end && s <= |src|
    {
      !InBracket(if s == 0 then NUL else src[s - 1], i, end - 1) && InBracket(SrcAt(s), i, end - 1)
    }

    /** Captures lie in the part of the source already matched. */
    ghost predicate CapsOk(caps: seq<Cap>, s: nat) {
      forall i :: 0 <= i < |caps| ==> CapOk(caps[i], s)
    }

    predicate CapOk(c: Cap, s: nat) {
      0 <= c.init <= s && (c.len == UNFINISHED || c.len == POSITION || 0 <= c.len <= s - c.init)
    }

    /** The text of a capture occurs at `s`. A position capture has no text. */
    predicate Repeats(c: Cap, s: nat) {
      0 <= c.init && 0 <= c.len && c.init + c.len <= |src| && s + c.len <= |src| &&
      src[s..s + c.len] == src[c.init..c.init + c.len]
    }

    // ----- the meaning of a pattern -----

    static predicate RepAllows(rep: Rep, k: nat) {
      match rep
      case Once => k == 1
      case Opt => k <= 1
      case Star => true
      case Plus => k >= 1
      case Lazy => true
    }

    /** The match that follows from choosing `ks[i]` repetitions for the i-th item
        (0 for an item that is no set), or None when these choices do not match. */
    ghost function Derive(p: Pattern, s: nat, caps: seq<Cap>, ks: seq<nat>): Option<Out>
      decreases p
    {
      match p
      case Done => if ks == [] then Some(Out(s, caps)) else None
      case AtEnd => if ks == [] && s == |src| then Some(Out(s, caps)) else None
      case Then(item, rest) =>
        if ks == [] then None
        else if item.Set? then
          if item.at < item.end && RepAllows(item.rep, ks[0]) && s + ks[0] <= |src| &&
             forall k :: s <= k < s + ks[0] ==> AdmitsAt(k, item.at, item.end)
          then Derive(rest, s + ks[0], caps, ks[1..]) else None
        else if ks[0] != 0 || s > |src| then None
        else
          match item
          case Open(pos) =>
            Derive(rest, s, caps + [Cap(s, if pos then POSITION else UNFINISHED)], ks[1..])
          case Close =>
            var l := LastTrue(Flags(caps));
            if l < 0 then None
            else Derive(rest, s, caps[l := Cap(caps[l].init, s - caps[l].init)], ks[1..])
          case Back(d) =>
            var l := d as int - '1' as int;
            if 0 <= l < |caps| && Repeats(caps[l], s)
            then Derive(rest, s + caps[l].len, caps, ks[1..]) else None
          case Balance(b, e) =>
            var r := BalanceEnd(s, b, e);
            if r.None? then None else Derive(rest, r.value, caps, ks[1..])
          case Frontier(i, end) =>
            if i < end && AtFrontier(s, i, end) then Derive(rest, s, caps, ks[1..]) else None
          case Set(_, _, _) => None
    }

    /** `ks` has priority over `ls`: at the first item where they differ, the
        greedy item repeats more often, or the lazy one less often. */
    ghost predicate Before(p: Pattern, ks: seq<nat>, ls: seq<nat>)
      decreases p
    {
      p.Then? && ks != [] && ls != [] &&
      if ks[0] == ls[0] then Before(p.rest, ks[1..], ls[1..])
      else if p.item.Set? && p.item.rep.Lazy? then ks[0] < ls[0]
      else ks[0] > ls[0]
    }

    // ----- the search -----

    /** The first match in priority order, found by backtracking. */
    function First(p: Pattern, s: nat, caps: seq<Cap>): (r: Option<Out>)
      requires s <= |src| && CapsOk(caps, s) && WellFormed(p, Flags(caps)) && InText(p)
      ensures r.Some? ==> s <= r.value.end <= |src| && CapsOk(r.value.caps, r.value.end)
      ensures r.Some? ==> |caps| <= |r.value.caps|
      decreases p, 0
    {
      match p
      case Done => Some(Out(s, caps))
      case AtEnd => if s == |src| then Some(Out(s, caps)) else None
      case Then(Set(i, e, rep), rest) => (
        var m := AdmitsAt(s, i, e);
        match rep
        case Once => if m then First(rest, s + 1, caps) else None
        case Opt =>
          var r := if m then First(rest, s + 1, caps) else None;
          if r.Some? then r else First(rest, s, caps)
        case Star => Greedy(rest, s, caps, Run(s, i, e))
        case Plus => if m then Greedy(rest, s + 1, caps, Run(s + 1, i, e)) else None
        case Lazy => Reluctant(rest, s, caps, i, e))
      case Then(Open(pos), rest) =>
        var caps' := caps + [Cap(s, if pos then POSITION else UNFINISHED)];
        assert Flags(caps') == Flags(caps) + [!pos];
        First(rest, s, caps')
      case Then(Close, rest) =>
        var l := LastTrue(Flags(caps));
        var caps' := caps[l := Cap(caps[l].init, s - caps[l].init)];
        assert Flags(caps') == Flags(caps)[l := false];
        First(rest, s, caps')
      case Then(Back(d), rest) =>
        var c := caps[d as int - '1' as int];
        if Repeats(c, s) then First(rest, s + c.len, caps) else None
      case Then(Balance(b, e), rest) => (
        match BalanceEnd(s, b, e)
        case None => None
        case Some(t) => First(rest, t, caps))
      case Then(Frontier(i, e), rest) =>
        if AtFrontier(s, i, e) then First(rest, s, caps) else None
    }

    /** Tries `n`, then `n - 1`, ... repetitions from `s`. */
    function Greedy(rest: Pattern, s: nat, caps: seq<Cap>, n: nat): (r: Option<Out>)
      requires s + n <= |src| && CapsOk(caps, s) && WellFormed(rest, Flags(caps)) && InText(rest)
      ensures r.Some? ==> s <= r.value.end <= |src| && CapsOk(r.value.caps, r.value.end)
      ensures r.Some? ==> |caps| <= |r.value.caps|
      decreases rest, n + 1
    {
      var r := First(rest, s + n, caps);
      if r.Some? || n == 0 then r else Greedy(rest, s, caps, n - 1)
    }

    /** Tries no repetition first, then one more each time. */
    function Reluctant(rest: Pattern, s: nat, caps: seq<Cap>, i: nat, e: nat): (r: Option<Out>)
      requires s <= |src| && i < e
      requires CapsOk(caps, s) && WellFormed(rest, Flags(caps)) && InText(rest)
      ensures r.Some? ==> s <= r.value.end <= |src| && CapsOk(r.value.caps, r.value.end)
      ensures r.Some? ==> |caps| <= |r.value.caps|
      decreases rest, |src| - s + 1
    {
      var r := First(rest, s, caps);
      if r.Some? then r
      else if AdmitsAt(s, i, e) then Reluctant(rest, s + 1, caps, i, e)
      else None
    }

    /** Every set of the pattern is a non-empty slice of its text. */
    static predicate InText(p: Pattern) {
      match p
      case Then(Set(i, e, _), rest) => i < e && InText(rest)
      case Then(Frontier(i, e), rest) => i < e && InText(rest)
      case Then(_, rest) => InText(rest)
      case _ => true
    }

    lemma {:induction false} ParsedInText(i: nat)
      ensures Parse(i).Some? ==> InText(Parse(i).value)
      decreases |pat| - i
    {
      if At(i) != NUL && !(At(i) == '$' && At(i + 1) == NUL) {
        match ParseItem(i)
        case None =>
        case Some((item, j)) => ParsedInText(j);
      }
    }

    // ----- the search finds the derivation with priority -----

    /** `r` is the match of the derivation that has priority over all others, or
        None when there is no derivation. */
    ghost predicate Best(p: Pattern, s: nat, caps: seq<Cap>, r: Option<Out>) {
      if r.None? then forall ks :: Derive(p, s, caps, ks).None?
      else exists ks :: BestBy(p, s, caps, r, ks)
    }

    ghost predicate BestBy(p: Pattern, s: nat, caps: seq<Cap>, r: Option<Out>, ks: seq<nat>) {
      Derive(p, s, caps, ks) == r &&
      forall ls :: Derive(p, s, caps, ls).Some? ==> ls == ks || Before(p, ks, ls)
    }

    /** The same among derivations that start with `lo` to `hi` repetitions. */
    ghost predicate BestAmong(p: Pattern, s: nat, caps: seq<Cap>, r: Option<Out>, lo: int, hi: int) {
      if r.None? then
        forall ks :: ks != [] && lo <= ks[0] <= hi ==> Derive(p, s, caps, ks).None?
      else
        exists ks :: BestAmongBy(p, s, caps, r, lo, hi, ks)
    }

    ghost predicate BestAmongBy(p: Pattern, s: nat, caps: seq<Cap>, r: Option<Out>,
                                lo: int, hi: int, ks: seq<nat>)
    {
      ks != [] && lo <= ks[0] <= hi && Derive(p, s, caps, ks) == r &&
      forall ls :: ls != [] && lo <= ls[0] <= hi && Derive(p, s, caps, ls).Some? ==>
        ls == ks || Before(p, ks, ls)
    }

    /** The first item chooses `k` and leaves `rest` to match from (s', caps'). */
    ghost predicate Chooses(p: Pattern, s: nat, caps: seq<Cap>, k: nat, s': nat, caps': seq<Cap>) {
      p.Then? &&
      forall ks :: ks != [] && ks[0] == k ==>
        Derive(p, s, caps, ks) == Derive(p.rest, s', caps', ks[1..])
    }

    lemma {:induction false} ChoiceIsBest(p: Pattern, s: nat, caps: seq<Cap>, k: nat,
                                          s': nat, caps': seq<Cap>, r: Option<Out>)
      requires Chooses(p, s, caps, k, s', caps') && Best(p.rest, s', caps', r)
      ensures BestAmong(p, s, caps, r, k, k)
    {
      if r.Some? {
        var ks :| BestBy(p.rest, s', caps', r, ks);
        var ks' := [k] + ks;
        assert ks'[1..] == ks;
        forall ls: seq<nat> | ls != [] && ls[0] == k && Derive(p, s, caps, ls).Some?
          ensures ls == ks' || Before(p, ks', ls)
        {
          assert ls == [k] + ls[1..];
        }
        assert BestAmongBy(p, s, caps, r, k, k, ks');
      }
    }

    /** A greedy item prefers the higher of two ranges of choices. */
    lemma {:induction false} GreedyUnion(p: Pattern, s: nat, caps: seq<Cap>, lo: int, mid: int, hi: int,
                      high: Option<Out>, low: Option<Out>)
      requires p.Then? && (p.item.Set? ==> !p.item.rep.Lazy?) && lo <= mid <= hi + 1
      requires BestAmong(p, s, caps, high, mid, hi) && BestAmong(p, s, caps, low, lo, mid - 1)
      ensures BestAmong(p, s, caps, if high.Some? then high else low, lo, hi)
    {
      if high.Some? {
        var ks :| BestAmongBy(p, s, caps, high, mid, hi, ks);
        assert BestAmongBy(p, s, caps, high, lo, hi, ks);
      } else if low.Some? {
        var ks :| BestAmongBy(p, s, caps, low, lo, mid - 1, ks);
        assert BestAmongBy(p, s, caps, low, lo, hi, ks);
      }
    }

    /** A lazy item prefers the lower one. */
    lemma {:induction false} LazyUnion(p: Pattern, s: nat, caps: seq<Cap>, lo: int, mid: int, hi: int,
                    low: Option<Out>, high: Option<Out>)
      requires p.Then? && p.item.Set? && p.item.rep.Lazy? && lo <= mid <= hi + 1
      requires BestAmong(p, s, caps, high, mid, hi) && BestAmong(p, s, caps, low, lo, mid - 1)
      ensures BestAmong(p, s, caps, if low.Some? then low else high, lo, hi)
    {
      if low.Some? {
        var ks :| BestAmongBy(p, s, caps, low, lo, mid - 1, ks);
        assert BestAmongBy(p, s, caps, low, lo, hi, ks);
      } else if high.Some? {
        var ks :| BestAmongBy(p, s, caps, high, mid, hi, ks);
        assert BestAmongBy(p, s, caps, high, lo, hi, ks);
      }
    }

    /** No derivation starts outside the range, so the best inside it is the best. */
    lemma {:induction false} WholeRange(p: Pattern, s: nat, caps: seq<Cap>, r: Option<Out>, lo: int, hi: int)
      requires p.Then? && BestAmong(p, s, caps, r, lo, hi)
      requires forall ks :: ks != [] && !(lo <= ks[0] <= hi) ==> Derive(p, s, caps, ks).None?
      ensures Best(p, s, caps, r)
    {
      if r.Some? {
        var ks :| BestAmongBy(p, s, caps, r, lo, hi, ks);
        assert BestBy(p, s, caps, r, ks);
      }
    }

    ghost predicate Searchable(p: Pattern, s: nat, caps: seq<Cap>) {
      s <= |src| && CapsOk(caps, s) && WellFormed(p, Flags(caps)) && InText(p)
    }

    /** The search returns the match of the derivation with priority, and fails
        exactly when there is no derivation. */
    lemma {:induction false} FirstIsBest(p: Pattern, s: nat, caps: seq<Cap>)
      requires Searchable(p, s, caps)
      ensures Best(p, s, caps, First(p, s, caps))
      decreases p, 2
    {
      match p
      case Done =>
        assert Derive(p, s, caps, []) == Some(Out(s, caps));
        assert BestBy(p, s, caps, Some(Out(s, caps)), []);
      case AtEnd =>
        if s == |src| {
          assert BestBy(p, s, caps, Some(Out(s, caps)), []);
        }
      case Then(Set(i, e, rep), rest) => SetIsBest(p, s, caps);
      case Then(item, rest) =>
        var (t, caps') := After(item, s, caps);
        if t.Some? {
          StepKeepsCaps(p, s, caps);
          FirstIsBest(rest, t.value, caps');
          ChoiceIsBest(p, s, caps, 0, t.value, caps', First(rest, t.value, caps'));
        }
        WholeRange(p, s, caps, First(p, s, caps), 0, 0);
    }

    /** Where an item that is no set leaves the match, if it matches at all. */
    ghost function After(item: Item, s: nat, caps: seq<Cap>): (Option<nat>, seq<Cap>)
      requires !item.Set? && s <= |src|
    {
      match item
      case Open(pos) => (Some(s), caps + [Cap(s, if pos then POSITION else UNFINISHED)])
      case Close =>
        var l := LastTrue(Flags(caps));
        if l < 0 then (None, caps) else (Some(s), caps[l := Cap(caps[l].init, s - caps[l].init)])
      case Back(d) =>
        var l := d as int - '1' as int;
        if 0 <= l < |caps| && Repeats(caps[l], s) then (Some(s + caps[l].len), caps) else (None, caps)
      case Balance(b, e) => (BalanceEnd(s, b, e), caps)
      case Frontier(i, e) => (if i < e && AtFrontier(s, i, e) then Some(s) else None, caps)
    }

    lemma {:induction false} StepKeepsCaps(p: Pattern, s: nat, caps: seq<Cap>)
      requires p.Then? && !p.item.Set? && Searchable(p, s, caps)
      requires After(p.item, s, caps).0.Some?
      ensures var (t, caps') := After(p.item, s, caps);
        Searchable(p.rest, t.value, caps') && Chooses(p, s, caps, 0, t.value, caps') &&
        First(p, s, caps) == First(p.rest, t.value, caps')
    {
      match p.item
      case Open(pos) =>
        assert Flags(After(p.item, s, caps).1) == Flags(caps) + [!pos];
      case Close => CloseKeepsCaps(p, s, caps);
      case _ =>
    }

    lemma {:induction false} CloseKeepsCaps(p: Pattern, s: nat, caps: seq<Cap>)
      requires p.Then? && p.item.Close? && Searchable(p, s, caps)
      requires After(p.item, s, caps).0.Some?
      ensures var (t, caps') := After(p.item, s, caps);
        Searchable(p.rest, t.value, caps') && Chooses(p, s, caps, 0, t.value, caps') &&
        First(p, s, caps) == First(p.rest, t.value, caps')
    {
      var l := LastTrue(Flags(caps));
      assert Flags(After(p.item, s, caps).1) == Flags(caps)[l := false];
    }

    lemma {:induction false} OptIsBest(p: Pattern, s: nat, caps: seq<Cap>)
      requires p.Then? && p.item.Set? && p.item.rep.Opt? && Searchable(p, s, caps)
      ensures Best(p, s, caps, First(p, s, caps))
      decreases p.rest, 4
    {
      var n := Run(s, p.item.at, p.item.end);
      SetChoice(p, s, caps, 0);
      if n > 0 { SetChoice(p, s, caps, 1); }
      var high := if n > 0 then First(p.rest, s + 1, caps) else None;
      GreedyUnion(p, s, caps, 0, 1, 1, high, First(p.rest, s, caps));
      WholeRange(p, s, caps, First(p, s, caps), 0, 1);
    }

    lemma {:induction false} RunIsBest(p: Pattern, s: nat, caps: seq<Cap>, base: nat)
      requires p.Then? && p.item.Set? && Searchable(p, s, caps) && base <= Run(s, p.item.at, p.item.end)
      requires if base == 0 then p.item.rep.Star? else base == 1 && p.item.rep.Plus?
      ensures Best(p, s, caps, First(p, s, caps))
      decreases p, 0
    {
      var n := Run(s, p.item.at, p.item.end);
      hide BestAmong, Best;
      GreedyIsBest(p, s, caps, base, n - base);
      WholeRange(p, s, caps, First(p, s, caps), base, n);
    }

    lemma {:induction false} SetIsBest(p: Pattern, s: nat, caps: seq<Cap>)
      requires p.Then? && p.item.Set? && Searchable(p, s, caps)
      ensures Best(p, s, caps, First(p, s, caps))
      decreases p, 1
    {
      var Then(Set(i, e, rep), rest) := p;
      var n := Run(s, i, e);
      match rep
      case Once =>
        if n > 0 { SetChoice(p, s, caps, 1); }
        WholeRange(p, s, caps, First(p, s, caps), 1, 1);
      case Opt => OptIsBest(p, s, caps);
      case Star => RunIsBest(p, s, caps, 0);
      case Plus => if n > 0 { RunIsBest(p, s, caps, 1); }
      case Lazy =>
        hide BestAmong, Best;
        ReluctantIsBest(p, s, caps, 0, n);
        WholeRange(p, s, caps, First(p, s, caps), 0, n);
    }

    /** Choosing `k` repetitions leaves the rest to match after them. */
    lemma {:induction false} SetChoice(p: Pattern, s: nat, caps: seq<Cap>, k: nat)
      requires p.Then? && p.item.Set? && Searchable(p, s, caps)
      requires RepAllows(p.item.rep, k) && k <= Run(s, p.item.at, p.item.end)
      ensures Searchable(p.rest, s + k, caps)
      ensures BestAmong(p, s, caps, First(p.rest, s + k, caps), k, k)
      decreases p.rest, 3
    {
      hide First, Best;
      FirstIsBest(p.rest, s + k, caps);
      ChoiceIsBest(p, s, caps, k, s + k, caps, First(p.rest, s + k, caps));
    }

    lemma {:induction false} GreedyIsBest(p: Pattern, s: nat, caps: seq<Cap>, base: nat, n: nat)
      requires p.Then? && p.item.Set? && !p.item.rep.Lazy? && Searchable(p, s, caps)
      requires base + n <= Run(s, p.item.at, p.item.end)
      requires forall k :: base <= k <= base + n ==> RepAllows(p.item.rep, k)
      ensures BestAmong(p, s, caps, Greedy(p.rest, s + base, caps, n), base, base + n)
      decreases p.rest, n + 4
    {
      hide BestAmong, First;
      SetChoice(p, s, caps, base + n);
      if n > 0 {
        GreedyIsBest(p, s, caps, base, n - 1);
        GreedyUnion(p, s, caps, base, base + n, base + n,
                    First(p.rest, s + base + n, caps), Greedy(p.rest, s + base, caps, n - 1));
      }
    }

    lemma {:induction false} ReluctantIsBest(p: Pattern, s: nat, caps: seq<Cap>, k: nat, n: nat)
      requires p.Then? && p.item.Set? && p.item.rep.Lazy? && Searchable(p, s, caps)
      requires k <= n == Run(s, p.item.at, p.item.end)
      ensures BestAmong(p, s, caps, Reluctant(p.rest, s + k, caps, p.item.at, p.item.end), k, n)
      decreases p.rest, n - k + 4
    {
      hide BestAmong, First;
      SetChoice(p, s, caps, k);
      if k < n {
        ReluctantIsBest(p, s, caps, k + 1, n);
        LazyUnion(p, s, caps, k, k + 1, n, First(p.rest, s + k, caps),
                  Reluctant(p.rest, s + k + 1, caps, p.item.at, p.item.end));
      }
    }

    /** Priority is a strict order on derivations, so there is one answer. */
    lemma {:induction false} BeforeIsAsymmetric(p: Pattern, ks: seq<nat>, ls: seq<nat>)
      requires Before(p, ks, ls)
      ensures !Before(p, ls, ks)
      decreases p
    {
      if ks[0] == ls[0] { BeforeIsAsymmetric(p.rest, ks[1..], ls[1..]); }
    }

    lemma {:induction false} BestIsUnique(p: Pattern, s: nat, caps: seq<Cap>, r: Option<Out>, r': Option<Out>)
      requires Best(p, s, caps, r) && Best(p, s, caps, r')
      ensures r == r'
    {
      if r.Some? && r'.Some? {
        var ks :| BestBy(p, s, caps, r, ks);
        var ls :| BestBy(p, s, caps, r', ls);
        if ks != ls { BeforeIsAsymmetric(p, ks, ls); }
      }
    }

    // ----- balanced text -----

    /** How many brackets are pending after reading [s, t). */
    function Pending(s: nat, t: nat, b: char, e: char, open: int): int
      requires t <= |src|
      decreases t - s
    {
      if s >= t then open
      else Pending(s + 1, t, b, e, if src[s] == e then open - 1 else if src[s] == b then open + 1 else open)
    }

    /** Scanning stops at the first position where nothing is pending. */
    lemma {:induction false} ClosingIsFirstBalance(s: nat, b: char, e: char, open: nat)
      requires open > 0 && s <= |src|
      ensures var r := Closing(s, b, e, open);
        var end := if r.Some? then r.value else |src| + 1;
        (forall t :: s <= t < end ==> Pending(s, t, b, e, open) > 0) &&
        (r.Some? ==> Pending(s, end, b, e, open) == 0)
      decreases |src| - s
    {
      if s < |src| {
        var open' := if src[s] == e then open - 1 else if src[s] == b then open + 1 else open;
        if open' > 0 {
          ClosingIsFirstBalance(s + 1, b, e, open');
          forall t | s < t <= |src|
            ensures Pending(s, t, b, e, open) == Pending(s + 1, t, b, e, open')
          {
          }
        } else {
          assert Pending(s, s + 1, b, e, open) == Pending(s + 1, s + 1, b, e, open');
        }
      }
    }
  }
}
