/** http_parser_parse_url: the fields of a URL. The specification tags every byte with the
    field it belongs to; the parser's slices are exactly the bytes with their tag. */
module HttpUrl {
  import opened HttpChars

  /** The fields, in the order in which they stand in a URL. */
  datatype Uf = SCHEMA | USERINFO | HOST | PORT | PATH | QUERY | FRAGMENT

  datatype Tag = NoField | Of(field: Uf)

  function Order(f: Uf): nat {
    match f
    case SCHEMA => 0
    case USERINFO => 1
    case HOST => 2
    case PORT => 3
    case PATH => 4
    case QUERY => 5
    case FRAGMENT => 6
  }

  // ----- the first pass -----

  datatype UrlState = BeforeUrl | In(part: Part) | DeadUrl

  function Known(m: MaybePart): UrlState { if m.NoPart? then DeadUrl else In(m.part) }

  /** parse_url_char */
  function NextUrl(s: UrlState, c: char): UrlState {
    match s
    case BeforeUrl => Known(StartUrl(c))
    case In(part) => Known(ParseUrlChar(part, c))
    case DeadUrl => DeadUrl
  }

  function UrlStart(isConnect: bool): UrlState { if isConnect then In(ServerStart) else BeforeUrl }

  /** The state after a text. */
  function UrlAfter(isConnect: bool, text: string): UrlState {
    if text == "" then UrlStart(isConnect) else NextUrl(UrlAfter(isConnect, text[..|text| - 1]), text[|text| - 1])
  }

  function PartTag(s: UrlState): Tag {
    if !s.In? then NoField
    else
      match s.part
      case Schema => Of(SCHEMA)
      case Server => Of(HOST)
      case ServerWithAt => Of(HOST)
      case Path => Of(PATH)
      case QueryString => Of(QUERY)
      case Fragment => Of(FRAGMENT)
      case _ => NoField
  }

  /** The tags of the first pass. */
  function Tags(isConnect: bool, text: string): (t: seq<Tag>)
    ensures |t| == |text|
  {
    if text == "" then [] else Tags(isConnect, text[..|text| - 1]) + [PartTag(UrlAfter(isConnect, text))]
  }

  function PartRank(s: UrlState): nat {
    if !s.In? then 0
    else
      match s.part
      case Schema => 1
      case SchemaSlash => 2
      case SchemaSlashSlash => 3
      case ServerStart => 4
      case Server => 5
      case ServerWithAt => 5
      case Path => 6
      case QueryStringStart => 7
      case QueryString => 8
      case FragmentStart => 9
      case Fragment => 10
  }

  function FieldRank(f: Uf): nat {
    match f
    case SCHEMA => 1
    case USERINFO => 5
    case HOST => 5
    case PORT => 5
    case PATH => 6
    case QUERY => 8
    case FRAGMENT => 10
  }

  predicate IsDelimiter(c: char) { c in ":/?#@[]" }

  lemma {:induction false} NextRank(s: UrlState, c: char)
    requires NextUrl(s, c) != DeadUrl
    ensures PartRank(NextUrl(s, c)) >= PartRank(s)
    ensures PartTag(NextUrl(s, c)) == NoField ==> IsDelimiter(c)
    ensures PartTag(NextUrl(s, c)).Of? ==>
      FieldRank(PartTag(NextUrl(s, c)).field) == PartRank(NextUrl(s, c)) &&
      PartTag(NextUrl(s, c)).field != USERINFO && PartTag(NextUrl(s, c)).field != PORT
    ensures PartRank(NextUrl(s, c)) == PartRank(s) && s.In? && PartTag(NextUrl(s, c)).Of? ==>
      PartTag(s) == PartTag(NextUrl(s, c))
  {
  }

  lemma {:induction false} TagsAt(isConnect: bool, text: string, i: nat)
    requires i < |text|
    ensures Tags(isConnect, text)[i] == PartTag(UrlAfter(isConnect, text[..i + 1]))
    ensures i > 0 ==> Tags(isConnect, text)[i - 1] == PartTag(UrlAfter(isConnect, text[..i]))
    decreases |text|
  {
    hide UrlAfter, PartTag;
    var n := |text| - 1;
    assert text[..|text|] == text;
    if i < n {
      TagsAt(isConnect, text[..n], i);
      assert text[..n][..i + 1] == text[..i + 1] && text[..n][..i] == text[..i];
    } else if i > 0 {
      TagsAt(isConnect, text[..n], i - 1);
      assert text[..n][..i] == text[..i];
    }
  }

  lemma {:induction false} UrlStep(isConnect: bool, text: string, p: nat)
    requires p < |text|
    ensures UrlAfter(isConnect, text[..p + 1]) == NextUrl(UrlAfter(isConnect, text[..p]), text[p])
    ensures Tags(isConnect, text[..p + 1]) == Tags(isConnect, text[..p]) + [PartTag(UrlAfter(isConnect, text[..p + 1]))]
  {
    assert text[..p + 1][..p] == text[..p];
  }

  /** A refused byte refuses the URL. */
  lemma {:induction false} DeadStays(isConnect: bool, text: string, p: nat)
    requires p <= |text| && UrlAfter(isConnect, text[..p]) == DeadUrl
    ensures UrlAfter(isConnect, text) == DeadUrl
    decreases |text| - p
  {
    if p == |text| {
      assert text[..p] == text;
    } else {
      UrlStep(isConnect, text, p);
      DeadStays(isConnect, text, p + 1);
    }
  }

  /** The server part holds an '@'. */
  function SawAt(isConnect: bool, text: string): bool {
    text != "" && (SawAt(isConnect, text[..|text| - 1]) || UrlAfter(isConnect, text) == In(ServerWithAt))
  }

  // ----- the second pass, over the server part -----

  datatype HostState =
    | UserinfoStart | Userinfo | HostStart | V6Start | HostName | V6 | V6End | PortStart | PortDigits | DeadHost

  /** http_parse_host_char */
  function NextHost(s: HostState, c: char): HostState {
    match s
    case UserinfoStart => if c == '@' then HostStart else if IsUserinfoChar(c) then Userinfo else DeadHost
    case Userinfo => if c == '@' then HostStart else if IsUserinfoChar(c) then Userinfo else DeadHost
    case HostStart => if c == '[' then V6Start else if IsHostChar(c) then HostName else DeadHost
    case HostName => if IsHostChar(c) then HostName else if c == ':' then PortStart else DeadHost
    case V6End => if c == ':' then PortStart else DeadHost
    case V6 => if c == ']' then V6End else if IsHex(c) || c == ':' || c == '.' then V6 else DeadHost
    case V6Start => if IsHex(c) || c == ':' || c == '.' then V6 else DeadHost
    case PortDigits => if IsNum(c) then PortDigits else DeadHost
    case PortStart => if IsNum(c) then PortDigits else DeadHost
    case DeadHost => DeadHost
  }

  function HostBegin(foundAt: bool): HostState { if foundAt then UserinfoStart else HostStart }

  /** The state after the bytes of the server part in a text. */
  function HostAfter(isConnect: bool, foundAt: bool, text: string): HostState {
    if text == "" then HostBegin(foundAt)
    else
      var s := HostAfter(isConnect, foundAt, text[..|text| - 1]);
      if PartTag(UrlAfter(isConnect, text)) == Of(HOST) then NextHost(s, text[|text| - 1]) else s
  }

  function HostTag(s: HostState): Tag {
    match s
    case Userinfo => Of(USERINFO)
    case HostName => Of(HOST)
    case V6 => Of(HOST)
    case PortDigits => Of(PORT)
    case _ => NoField
  }

  predicate HostComplete(s: HostState) { s.HostName? || s.V6End? || s.PortDigits? }

  /** The field of a byte after both passes. */
  function FinalTag(isConnect: bool, foundAt: bool, text: string, i: nat): Tag
    requires i < |text|
  {
    if Tags(isConnect, text)[i] == Of(HOST) then HostTag(HostAfter(isConnect, foundAt, text[..i + 1]))
    else Tags(isConnect, text)[i]
  }

  lemma {:induction false} HostStep(isConnect: bool, foundAt: bool, text: string, p: nat)
    requires p < |text|
    ensures HostAfter(isConnect, foundAt, text[..p + 1]) ==
      if Tags(isConnect, text)[p] == Of(HOST) then NextHost(HostAfter(isConnect, foundAt, text[..p]), text[p])
      else HostAfter(isConnect, foundAt, text[..p])
  {
    assert text[..p + 1][..p] == text[..p];
    TagsAt(isConnect, text, p);
  }

  /** Outside of the server part nothing changes. */
  lemma {:induction false} HostSame(isConnect: bool, foundAt: bool, text: string, p: nat, q: nat)
    requires p <= q <= |text| && forall i :: p <= i < q ==> Tags(isConnect, text)[i] != Of(HOST)
    ensures HostAfter(isConnect, foundAt, text[..p]) == HostAfter(isConnect, foundAt, text[..q])
    decreases q - p
  {
    if p < q {
      HostStep(isConnect, foundAt, text, q - 1);
      HostSame(isConnect, foundAt, text, p, q - 1);
    }
  }

  lemma {:induction false} HostDeadStays(isConnect: bool, foundAt: bool, text: string, p: nat)
    requires p <= |text| && HostAfter(isConnect, foundAt, text[..p]) == DeadHost
    ensures HostAfter(isConnect, foundAt, text) == DeadHost
    decreases |text| - p
  {
    if p == |text| {
      assert text[..p] == text;
    } else {
      HostStep(isConnect, foundAt, text, p);
      HostDeadStays(isConnect, foundAt, text, p + 1);
    }
  }

  // ----- slices -----

  datatype Slice = Slice(off: nat, len: nat)

  type Slices = m: map<Uf, Slice> | forall f: Uf :: f in m witness map f: Uf | true :: Slice(0, 0)

  predicate Holds(fields: set<Uf>, data: Slices, f: Uf, i: nat) {
    f in fields && data[f].off <= i < data[f].off + data[f].len
  }

  /** The slices of the fields that are set are exactly the bytes with their tag. */
  ghost predicate Described(fields: set<Uf>, data: Slices, tags: seq<Tag>) {
    (forall f <- fields :: data[f].off + data[f].len <= |tags|) &&
    forall f: Uf, i: nat {:trigger Holds(fields, data, f, i)} :: i < |tags| ==>
      (Holds(fields, data, f, i) <==> tags[i] == Of(f))
  }

  ghost predicate NoneEmpty(fields: set<Uf>, data: Slices) { forall f <- fields :: data[f].len > 0 }

  lemma {:induction false} DescribedSkip(fields: set<Uf>, data: Slices, tags: seq<Tag>)
    requires Described(fields, data, tags)
    ensures Described(fields, data, tags + [NoField])
  {
  }

  lemma {:induction false} DescribedLonger(fields: set<Uf>, data: Slices, tags: seq<Tag>, f: Uf, data': Slices)
    requires Described(fields, data, tags) && f in fields && data[f].off + data[f].len == |tags|
    requires data' == data[f := Slice(data[f].off, data[f].len + 1)]
    ensures Described(fields, data', tags + [Of(f)])
  {
    forall g: Uf, i: nat {:trigger Holds(fields, data', g, i)} | i < |tags| + 1
      ensures Holds(fields, data', g, i) <==> (tags + [Of(f)])[i] == Of(g)
    {
      assert i < |tags| ==> (Holds(fields, data, g, i) <==> tags[i] == Of(g));
    }
  }

  lemma {:induction false} DescribedNew(fields: set<Uf>, data: Slices, tags: seq<Tag>, f: Uf, data': Slices)
    requires Described(fields, data, tags) && f !in fields && data' == data[f := Slice(|tags|, 1)]
    ensures Described(fields + {f}, data', tags + [Of(f)])
  {
    forall g: Uf, i: nat {:trigger Holds(fields + {f}, data', g, i)} | i < |tags| + 1
      ensures Holds(fields + {f}, data', g, i) <==> (tags + [Of(f)])[i] == Of(g)
    {
      assert i < |tags| ==> (Holds(fields, data, g, i) <==> tags[i] == Of(g));
    }
  }

  /** Where the first pass stands: the last field that was set, and the order of those
      before. */
  ghost predicate Latest(old_uf: Tag, fields: set<Uf>, data: Slices, s: UrlState, p: nat) {
    (old_uf.NoField? ==> fields == {}) && USERINFO !in fields && PORT !in fields && NoneEmpty(fields, data) &&
    (old_uf.Of? ==>
      old_uf.field in fields && FieldRank(old_uf.field) <= PartRank(s) &&
      (forall f <- fields :: FieldRank(f) <= FieldRank(old_uf.field)) &&
      (FieldRank(old_uf.field) == PartRank(s) ==> data[old_uf.field].off + data[old_uf.field].len == p)) &&
    (HOST !in fields ==> data[HOST] == Slice(0, 0))
  }

  /** A field of 16 bits. */
  function U16(n: nat): nat { n % 0x1_0000 }

  ghost predicate First(isConnect: bool, buf: string, oldUf: Tag, fields: set<Uf>, data: Slices, s: UrlState, p: nat) {
    p <= |buf| && s == UrlAfter(isConnect, buf[..p]) && s != DeadUrl &&
    Described(fields, data, Tags(isConnect, buf[..p])) && Latest(oldUf, fields, data, s, p)
  }

  lemma {:induction false} Begins(isConnect: bool, buf: string, data: Slices)
    requires data[HOST] == Slice(0, 0)
    ensures First(isConnect, buf, NoField, {}, data, UrlStart(isConnect), 0) && !SawAt(isConnect, buf[..0])
  {
  }

  lemma {:induction false} Ends(isConnect: bool, buf: string, oldUf: Tag, fields: set<Uf>, data: Slices, s: UrlState)
    requires First(isConnect, buf, oldUf, fields, data, s, |buf|)
    ensures UrlAfter(isConnect, buf) != DeadUrl && Described(fields, data, Tags(isConnect, buf)) &&
      NoneEmpty(fields, data)
    ensures USERINFO !in fields && PORT !in fields && (HOST !in fields ==> data[HOST] == Slice(0, 0))
  {
    assert buf[..|buf|] == buf;
  }

  /** A byte that goes on in the field of the byte before. */
  lemma {:induction false} SameStep(isConnect: bool, buf: string, oldUf: Tag, fields: set<Uf>, data: Slices,
                                    s: UrlState, p: nat)
    requires First(isConnect, buf, oldUf, fields, data, s, p) && p < |buf| <= 65535
    requires NextUrl(s, buf[p]) != DeadUrl && oldUf.Of? && PartTag(NextUrl(s, buf[p])) == oldUf
    ensures var f := oldUf.field;
      First(isConnect, buf, oldUf, fields, data[f := Slice(data[f].off, U16(data[f].len + 1))], NextUrl(s, buf[p]),
        p + 1)
  {
    hide NextUrl, UrlAfter, Tags, PartTag, Described, PartRank, FieldRank;
    var f := oldUf.field;
    UrlStep(isConnect, buf, p);
    NextRank(s, buf[p]);
    assert FieldRank(f) == PartRank(s);
    DescribedLonger(fields, data, Tags(isConnect, buf[..p]), f, data[f := Slice(data[f].off, data[f].len + 1)]);
  }

  /** A byte that starts a field. */
  lemma {:induction false} NewStep(isConnect: bool, buf: string, oldUf: Tag, fields: set<Uf>, data: Slices,
                                   s: UrlState, p: nat, f: Uf)
    requires First(isConnect, buf, oldUf, fields, data, s, p) && p < |buf| <= 65535
    requires NextUrl(s, buf[p]) != DeadUrl && oldUf != Of(f) && PartTag(NextUrl(s, buf[p])) == Of(f)
    ensures First(isConnect, buf, Of(f), fields + {f}, data[f := Slice(U16(p), 1)], NextUrl(s, buf[p]), p + 1)
  {
    hide NextUrl, UrlAfter, Tags, PartTag, Described, PartRank, FieldRank;
    UrlStep(isConnect, buf, p);
    NextRank(s, buf[p]);
    OneFieldARank(fields, f, oldUf, s);
    DescribedNew(fields, data, Tags(isConnect, buf[..p]), f, data[f := Slice(p, 1)]);
  }

  lemma {:induction false} OneFieldARank(fields: set<Uf>, f: Uf, oldUf: Tag, s: UrlState)
    requires oldUf != Of(f) && f != USERINFO && f != PORT && USERINFO !in fields && PORT !in fields
    requires oldUf.Of? ==> oldUf.field in fields && forall g <- fields :: FieldRank(g) <= FieldRank(oldUf.field)
    requires oldUf.Of? ==> FieldRank(oldUf.field) <= FieldRank(f)
    requires oldUf.NoField? ==> fields == {}
    ensures f !in fields && forall g <- fields :: FieldRank(g) <= FieldRank(f)
  {
  }

  /** A byte between fields. */
  lemma {:induction false} SkipStep(isConnect: bool, buf: string, oldUf: Tag, fields: set<Uf>, data: Slices,
                                    s: UrlState, p: nat)
    requires First(isConnect, buf, oldUf, fields, data, s, p) && p < |buf|
    requires NextUrl(s, buf[p]) != DeadUrl && PartTag(NextUrl(s, buf[p])) == NoField
    ensures First(isConnect, buf, oldUf, fields, data, NextUrl(s, buf[p]), p + 1)
  {
    hide UrlAfter, Tags;
    UrlStep(isConnect, buf, p);
    SkipRank(s, buf[p]);
    DescribedSkip(fields, data, Tags(isConnect, buf[..p]));
  }

  lemma {:induction false} SkipRank(s: UrlState, c: char)
    requires NextUrl(s, c) != DeadUrl && PartTag(NextUrl(s, c)) == NoField
    ensures PartRank(NextUrl(s, c)) >= PartRank(s)
    ensures forall f: Uf :: FieldRank(f) != PartRank(NextUrl(s, c))
  {
  }

  // ----- the second pass, step by step -----

  /** The tags after the first `p` bytes have been looked at again. */
  function MidTags(isConnect: bool, foundAt: bool, text: string, p: nat): (t: seq<Tag>)
    ensures |t| == |text|
    ensures forall i :: 0 <= i < |t| ==> t[i] == MidTag(isConnect, foundAt, text, p, i)
  {
    seq(|text|, i requires 0 <= i < |text| => MidTag(isConnect, foundAt, text, p, i))
  }

  function MidTag(isConnect: bool, foundAt: bool, text: string, p: nat, i: nat): Tag
    requires i < |text|
  {
    if i < p then FinalTag(isConnect, foundAt, text, i)
    else if Tags(isConnect, text)[i] == Of(HOST) then NoField
    else Tags(isConnect, text)[i]
  }

  function FinalTags(isConnect: bool, text: string): (t: seq<Tag>)
    ensures |t| == |text|
  {
    MidTags(isConnect, SawAt(isConnect, text), text, |text|)
  }

  lemma {:induction false} MidStep(isConnect: bool, foundAt: bool, text: string, p: nat)
    requires p < |text| && Tags(isConnect, text)[p] == Of(HOST)
    ensures MidTags(isConnect, foundAt, text, p)[p] == NoField
    ensures MidTags(isConnect, foundAt, text, p + 1) ==
      MidTags(isConnect, foundAt, text, p)[p := HostTag(NextHost(HostAfter(isConnect, foundAt, text[..p]), text[p]))]
  {
    HostStep(isConnect, foundAt, text, p);
  }

  lemma {:induction false} DescribedUpdate(fields: set<Uf>, data: Slices, tags: seq<Tag>, f: Uf, p: nat, data': Slices)
    requires Described(fields, data, tags) && p < |tags| && tags[p] == NoField
    requires if f in fields && data[f].len > 0 then
        data[f].off + data[f].len == p && data' == data[f := Slice(data[f].off, data[f].len + 1)]
      else data' == data[f := Slice(p, 1)]
    ensures Described(fields + {f}, data', tags[p := Of(f)])
  {
    var tags' := tags[p := Of(f)];
    forall g: Uf, i: nat {:trigger Holds(fields + {f}, data', g, i)} | i < |tags|
      ensures Holds(fields + {f}, data', g, i) <==> tags'[i] == Of(g)
    {
      assert Holds(fields, data, g, i) <==> tags[i] == Of(g);
    }
  }

  /** The server part of a text are its bytes from `a` to `b`. */
  ghost predicate ServerIs(isConnect: bool, text: string, a: nat, b: nat) {
    a <= b <= |text| && forall i :: 0 <= i < |text| ==> (Tags(isConnect, text)[i] == Of(HOST) <==> a <= i < b)
  }

  /** Where the second pass stands: the fields that it has set, and the one that goes on. */
  ghost predicate Stage(s: HostState, fields: set<Uf>, data: Slices, p: nat) {
    HOST in fields && (forall f <- fields :: f == HOST || data[f].len > 0) &&
    (s.UserinfoStart? ==> USERINFO !in fields) &&
    (s.Userinfo? ==> USERINFO in fields && data[USERINFO].off + data[USERINFO].len == p) &&
    (s.UserinfoStart? || s.Userinfo? || s.HostStart? || s.V6Start? ==> data[HOST].len == 0) &&
    (s.HostName? || s.V6? ==> data[HOST].len > 0 && data[HOST].off + data[HOST].len == p) &&
    (s.V6End? || s.PortStart? || s.PortDigits? ==> data[HOST].len > 0) &&
    (s.PortDigits? ==> PORT in fields && data[PORT].off + data[PORT].len == p) &&
    (!s.PortDigits? ==> PORT !in fields)
  }

  ghost predicate Second(isConnect: bool, foundAt: bool, buf: string, fields: set<Uf>, data: Slices, s: HostState,
                         p: nat) {
    p <= |buf| && s == HostAfter(isConnect, foundAt, buf[..p]) && s != DeadHost &&
    Described(fields, data, MidTags(isConnect, foundAt, buf, p)) && Stage(s, fields, data, p)
  }

  /** What the second pass makes of the slice of field `f` at byte `p`. */
  function Grown(fields: set<Uf>, data: Slices, f: Uf, p: nat): Slice {
    if f in fields && data[f].len > 0 then Slice(data[f].off, U16(data[f].len + 1)) else Slice(U16(p), 1)
  }

  lemma {:induction false} HostByte(isConnect: bool, foundAt: bool, buf: string, fields: set<Uf>, data: Slices,
                                    s: HostState, p: nat)
    requires Second(isConnect, foundAt, buf, fields, data, s, p) && p < |buf| <= 65535
    requires Tags(isConnect, buf)[p] == Of(HOST) && NextHost(s, buf[p]) != DeadHost
    ensures var s', t := NextHost(s, buf[p]), HostTag(NextHost(s, buf[p]));
      if t.NoField? then Second(isConnect, foundAt, buf, fields, data, s', p + 1)
      else
        ((s == s') <==> (t.field in fields && data[t.field].len > 0)) &&
        Second(isConnect, foundAt, buf, fields + {t.field}, data[t.field := Grown(fields, data, t.field, p)], s', p + 1)
  {
    var s', t := NextHost(s, buf[p]), HostTag(NextHost(s, buf[p]));
    hide HostAfter, MidTags, Tags, UrlAfter, NextHost, HostTag, Stage;
    HostStep(isConnect, foundAt, buf, p);
    MidStep(isConnect, foundAt, buf, p);
    if t.NoField? {
      assert MidTags(isConnect, foundAt, buf, p + 1) == MidTags(isConnect, foundAt, buf, p);
      Passes(s, buf[p], fields, data, p);
    } else {
      var f := t.field;
      Stays(s, buf[p], fields, data, p);
      DescribedUpdate(fields, data, MidTags(isConnect, foundAt, buf, p), f, p, data[f := Grown(fields, data, f, p)]);
    }
  }

  lemma {:induction false} Passes(s: HostState, c: char, fields: set<Uf>, data: Slices, p: nat)
    requires Stage(s, fields, data, p) && NextHost(s, c) != DeadHost && HostTag(NextHost(s, c)).NoField?
    ensures Stage(NextHost(s, c), fields, data, p + 1)
  {
  }

  lemma {:induction false} Stays(s: HostState, c: char, fields: set<Uf>, data: Slices, p: nat)
    requires Stage(s, fields, data, p) && p < 65535 && NextHost(s, c) != DeadHost && HostTag(NextHost(s, c)).Of?
    requires forall f <- fields :: data[f].off + data[f].len <= 65535
    ensures var f := HostTag(NextHost(s, c)).field;
      ((s == NextHost(s, c)) <==> (f in fields && data[f].len > 0)) &&
      (f in fields && data[f].len > 0 ==> data[f].off + data[f].len == p) &&
      Grown(fields, data, f, p) ==
        (if f in fields && data[f].len > 0 then Slice(data[f].off, data[f].len + 1) else Slice(p, 1)) &&
      Stage(NextHost(s, c), fields + {f}, data[f := Grown(fields, data, f, p)], p + 1)
  {
  }

  /** The text of a field: the bytes with its tag, up to byte `n`. */
  function BytesOf(tags: seq<Tag>, text: string, f: Uf, n: nat): string
    requires n <= |text| == |tags|
  {
    if n == 0 then "" else BytesOf(tags, text, f, n - 1) + if tags[n - 1] == Of(f) then [text[n - 1]] else []
  }

  /** The part of a slice in the first `n` bytes. */
  function Upto(text: string, s: Slice, n: nat): string
    requires n <= |text| && s.off + s.len <= |text|
  {
    if n <= s.off then "" else if n < s.off + s.len then text[s.off..n] else text[s.off..s.off + s.len]
  }

  lemma {:induction false} UptoNext(text: string, s: Slice, n: nat)
    requires n < |text| && s.off + s.len <= |text|
    ensures Upto(text, s, n + 1) == Upto(text, s, n) + if s.off <= n < s.off + s.len then [text[n]] else []
  {
    if s.off <= n < s.off + s.len {
      assert text[s.off..n] + [text[n]] == text[s.off..n + 1];
    } else {
      assert Upto(text, s, n + 1) == Upto(text, s, n);
    }
  }

  lemma {:induction false} SliceUpTo(fields: set<Uf>, data: Slices, tags: seq<Tag>, text: string, f: Uf, n: nat)
    requires |tags| == |text| && Described(fields, data, tags) && n <= |text|
    ensures BytesOf(tags, text, f, n) == if f in fields then Upto(text, data[f], n) else ""
  {
    if n == 0 {
    } else {
      hide Upto;
      SliceUpTo(fields, data, tags, text, f, n - 1);
      assert Holds(fields, data, f, n - 1) <==> tags[n - 1] == Of(f);
      if f in fields { UptoNext(text, data[f], n - 1); }
    }
  }

  /** The slice of a field holds the text of the field. */
  lemma {:induction false} SliceIs(fields: set<Uf>, data: Slices, tags: seq<Tag>, text: string, f: Uf)
    requires |tags| == |text| && Described(fields, data, tags) && f in fields
    ensures text[data[f].off..data[f].off + data[f].len] == BytesOf(tags, text, f, |text|)
  {
    SliceUpTo(fields, data, tags, text, f, |text|);
  }

  /** The decimal number of a text of digits. */
  function Number(digits: string): nat
    requires AllNum(digits)
  {
    if digits == "" then 0
    else 10 * Number(digits[..|digits| - 1]) + (digits[|digits| - 1] as int - '0' as int)
  }

  lemma {:induction false} OneMoreDigit(text: string, a: nat, b: nat)
    requires a <= b < |text| && AllNum(text[a..b]) && IsNum(text[b])
    ensures AllNum(text[a..b + 1]) && Number(text[a..b + 1]) == 10 * Number(text[a..b]) + (text[b] as int - '0' as int)
  {
    var more := text[a..b + 1];
    assert more[..|more| - 1] == text[a..b] && more[|more| - 1] == text[b];
    forall i | 0 <= i < |more|
      ensures IsNum(more[i])
    {
      if i < |more| - 1 { assert more[i] == text[a..b][i]; }
    }
  }

  function PortText(isConnect: bool, text: string): string {
    BytesOf(FinalTags(isConnect, text), text, PORT, |text|)
  }

  lemma {:induction false} PortByte(isConnect: bool, text: string, i: nat)
    requires i < |text| && FinalTags(isConnect, text)[i] == Of(PORT)
    ensures IsNum(text[i]) && Tags(isConnect, text)[i] == Of(HOST)
    ensures HostAfter(isConnect, SawAt(isConnect, text), text[..i + 1]) == PortDigits
  {
    hide UrlAfter, HostAfter, Tags, PartTag, SawAt;
    var found := SawAt(isConnect, text);
    HostStep(isConnect, found, text, i);
    TagsAt(isConnect, text, i);
    NotPort(UrlAfter(isConnect, text[..i + 1]));
  }

  lemma {:induction false} NotPort(s: UrlState)
    ensures PartTag(s) != Of(PORT) && PartTag(s) != Of(USERINFO)
  {
  }

  lemma {:induction false} PortIsNumber(isConnect: bool, text: string, n: nat)
    requires n <= |text|
    ensures AllNum(BytesOf(FinalTags(isConnect, text), text, PORT, n))
  {
    if n > 0 {
      PortIsNumber(isConnect, text, n - 1);
      if FinalTags(isConnect, text)[n - 1] == Of(PORT) { PortByte(isConnect, text, n - 1); }
    }
  }

  /** The byte behind the port is not a digit, so that strtoul stops there. */
  lemma {:induction false} PortEnds(isConnect: bool, text: string, i: nat)
    requires i + 1 < |text| && UrlAfter(isConnect, text) != DeadUrl
    requires HostAfter(isConnect, SawAt(isConnect, text), text) != DeadHost
    requires FinalTags(isConnect, text)[i] == Of(PORT) && FinalTags(isConnect, text)[i + 1] != Of(PORT)
    ensures !IsNum(text[i + 1])
  {
    hide UrlAfter, HostAfter, Tags, SawAt, MidTags;
    var found := SawAt(isConnect, text);
    PortByte(isConnect, text, i);
    HostStep(isConnect, found, text, i + 1);
    TagsAt(isConnect, text, i + 1);
    UrlStep(isConnect, text, i + 1);
    if HostAfter(isConnect, found, text[..i + 2]) == DeadHost { HostDeadStays(isConnect, found, text, i + 2); }
    if UrlAfter(isConnect, text[..i + 2]) == DeadUrl { DeadStays(isConnect, text, i + 2); }
    AfterServer(UrlAfter(isConnect, text[..i + 1]), text[i + 1]);
  }

  lemma {:induction false} AfterServer(s: UrlState, c: char)
    requires PartTag(s) == Of(HOST) && NextUrl(s, c) != DeadUrl && PartTag(NextUrl(s, c)) != Of(HOST)
    ensures c == '/' || c == '?'
  {
  }

  // ----- what is accepted, and what it means -----

  ghost predicate HasField(tags: seq<Tag>, f: Uf) { Of(f) in tags }

  /** A URL is accepted if both passes go through and the server part is complete, if for
      CONNECT it is a host and a port and nothing else, and if the port has 16 bits. */
  ghost predicate Accepts(isConnect: bool, text: string) {
    var tags := FinalTags(isConnect, text);
    PortIsNumber(isConnect, text, |text|);
    UrlAfter(isConnect, text) != DeadUrl &&
    (HasField(Tags(isConnect, text), SCHEMA) || HasField(Tags(isConnect, text), HOST) ==>
      HostComplete(HostAfter(isConnect, SawAt(isConnect, text), text))) &&
    (isConnect ==> forall f: Uf :: HasField(tags, f) <==> f == HOST || f == PORT) &&
    Number(PortText(isConnect, text)) <= 0xffff
  }

  lemma {:induction false} FieldsAre(fields: set<Uf>, data: Slices, tags: seq<Tag>, f: Uf)
    requires Described(fields, data, tags) && NoneEmpty(fields, data)
    ensures f in fields <==> HasField(tags, f)
  {
    if f in fields { assert Holds(fields, data, f, data[f].off); }
    if HasField(tags, f) {
      var i :| 0 <= i < |tags| && tags[i] == Of(f);
      assert Holds(fields, data, f, i);
    }
  }

  /** The slices of a URL: within the buffer, in order without overlap, and with nothing
      but delimiters between them. */
  ghost predicate Split(fields: set<Uf>, data: Slices, text: string) {
    (forall f <- fields :: 0 < data[f].len && data[f].off + data[f].len <= |text|) &&
    (forall f <- fields, g <- fields :: Order(f) < Order(g) ==> data[f].off + data[f].len <= data[g].off) &&
    forall i: nat :: i < |text| ==> IsDelimiter(text[i]) || exists f <- fields :: Holds(fields, data, f, i)
  }

  lemma {:induction false} RankMonotone(isConnect: bool, text: string, i: nat, j: nat)
    requires i <= j <= |text| && UrlAfter(isConnect, text) != DeadUrl
    ensures UrlAfter(isConnect, text[..j]) != DeadUrl
    ensures PartRank(UrlAfter(isConnect, text[..i])) <= PartRank(UrlAfter(isConnect, text[..j]))
    decreases j
  {
    if UrlAfter(isConnect, text[..j]) == DeadUrl { DeadStays(isConnect, text, j); }
    if i < j {
      RankMonotone(isConnect, text, i, j - 1);
      UrlStep(isConnect, text, j - 1);
      NextRank(UrlAfter(isConnect, text[..j - 1]), text[j - 1]);
    }
  }

  function HostRank(s: HostState): nat {
    match s
    case HostStart => 1
    case V6Start => 1
    case HostName => 2
    case V6 => 2
    case V6End => 3
    case PortStart => 3
    case PortDigits => 4
    case _ => 0
  }

  lemma {:induction false} NextHostRank(s: HostState, c: char)
    requires NextHost(s, c) != DeadHost
    ensures s != DeadHost && HostRank(s) <= HostRank(NextHost(s, c))
    ensures HostTag(NextHost(s, c)) == NoField ==> IsDelimiter(c)
  {
  }

  lemma {:induction false} HostMonotone(isConnect: bool, foundAt: bool, text: string, i: nat, j: nat)
    requires i <= j <= |text| && HostAfter(isConnect, foundAt, text) != DeadHost
    ensures HostAfter(isConnect, foundAt, text[..j]) != DeadHost
    ensures HostRank(HostAfter(isConnect, foundAt, text[..i])) <= HostRank(HostAfter(isConnect, foundAt, text[..j]))
    decreases j
  {
    if HostAfter(isConnect, foundAt, text[..j]) == DeadHost { HostDeadStays(isConnect, foundAt, text, j); }
    if i < j {
      HostMonotone(isConnect, foundAt, text, i, j - 1);
      HostStep(isConnect, foundAt, text, j - 1);
      if Tags(isConnect, text)[j - 1] == Of(HOST) {
        NextHostRank(HostAfter(isConnect, foundAt, text[..j - 1]), text[j - 1]);
      }
    }
  }

  /** Both passes go through. */
  ghost predicate Alive(isConnect: bool, text: string) {
    UrlAfter(isConnect, text) != DeadUrl && HostAfter(isConnect, SawAt(isConnect, text), text) != DeadHost
  }

  /** Where a byte with a final tag stands in the two passes. */
  lemma {:induction false} RankOf(isConnect: bool, text: string, i: nat)
    requires Alive(isConnect, text) && i < |text| && FinalTags(isConnect, text)[i].Of?
    ensures var f, found := FinalTags(isConnect, text)[i].field, SawAt(isConnect, text);
      FieldRank(f) == PartRank(UrlAfter(isConnect, text[..i + 1])) &&
      (FieldRank(f) == 5 ==> HostTag(HostAfter(isConnect, found, text[..i + 1])) == Of(f))
  {
    TagsAt(isConnect, text, i);
    UrlStep(isConnect, text, i);
    RankMonotone(isConnect, text, i, i + 1);
    NextRank(UrlAfter(isConnect, text[..i]), text[i]);
  }

  /** The fields stand in order. */
  lemma {:induction false} InOrder(isConnect: bool, text: string, i: nat, j: nat)
    requires Alive(isConnect, text) && i <= j < |text|
    requires FinalTags(isConnect, text)[i].Of? && FinalTags(isConnect, text)[j].Of?
    ensures Order(FinalTags(isConnect, text)[i].field) <= Order(FinalTags(isConnect, text)[j].field)
  {
    hide UrlAfter, HostAfter, FinalTags, SawAt, FieldRank, HostRank, Order, PartRank;
    RankOf(isConnect, text, i);
    RankOf(isConnect, text, j);
    RankMonotone(isConnect, text, i + 1, j + 1);
    HostMonotone(isConnect, SawAt(isConnect, text), text, i + 1, j + 1);
    var found := SawAt(isConnect, text);
    OrderByRank(FinalTags(isConnect, text)[i].field, FinalTags(isConnect, text)[j].field,
                HostAfter(isConnect, found, text[..i + 1]), HostAfter(isConnect, found, text[..j + 1]));
  }

  lemma {:induction false} OrderByRank(f: Uf, g: Uf, s: HostState, t: HostState)
    requires FieldRank(f) <= FieldRank(g) && HostRank(s) <= HostRank(t)
    requires (FieldRank(f) == 5 ==> HostTag(s) == Of(f)) && (FieldRank(g) == 5 ==> HostTag(t) == Of(g))
    ensures Order(f) <= Order(g)
  {
  }

  lemma {:induction false} OnlyDelimiters(isConnect: bool, text: string, i: nat)
    requires Alive(isConnect, text) && i < |text| && FinalTags(isConnect, text)[i] == NoField
    ensures IsDelimiter(text[i])
  {
    var found := SawAt(isConnect, text);
    TagsAt(isConnect, text, i);
    UrlStep(isConnect, text, i);
    RankMonotone(isConnect, text, i, i + 1);
    NextRank(UrlAfter(isConnect, text[..i]), text[i]);
    HostStep(isConnect, found, text, i);
    HostMonotone(isConnect, found, text, i, i + 1);
    if Tags(isConnect, text)[i] == Of(HOST) { NextHostRank(HostAfter(isConnect, found, text[..i]), text[i]); }
  }

  /** Slices that hold exactly the bytes with their tag split the URL. */
  lemma {:induction false} Splits(isConnect: bool, text: string, fields: set<Uf>, data: Slices)
    requires Alive(isConnect, text) && Described(fields, data, FinalTags(isConnect, text)) && NoneEmpty(fields, data)
    ensures Split(fields, data, text)
  {
    var tags := FinalTags(isConnect, text);
    hide FinalTags;
    forall f <- fields, g <- fields | Order(f) < Order(g) ensures data[f].off + data[f].len <= data[g].off {
      var i, j := data[f].off + data[f].len - 1, data[g].off;
      assert Holds(fields, data, f, i) && Holds(fields, data, g, j);
      if j <= i { InOrder(isConnect, text, j, i); }
    }
    forall i: nat | i < |text| ensures IsDelimiter(text[i]) || exists f <- fields :: Holds(fields, data, f, i) {
      if tags[i].Of? {
        assert Holds(fields, data, tags[i].field, i);
      } else {
        OnlyDelimiters(isConnect, text, i);
      }
    }
  }

  // ----- the parser -----

  /** Before the second pass: the server part is the slice of the host. */
  lemma {:induction false} ServerPart(isConnect: bool, foundAt: bool, buf: string, fields: set<Uf>, data: Slices)
    requires Described(fields, data, Tags(isConnect, buf)) && NoneEmpty(fields, data)
    requires USERINFO !in fields && PORT !in fields && (HOST !in fields ==> data[HOST] == Slice(0, 0))
    ensures ServerIs(isConnect, buf, data[HOST].off, data[HOST].off + data[HOST].len)
    ensures var a, data' := data[HOST].off, data[HOST := Slice(data[HOST].off, 0)];
      HOST in fields ==> Second(isConnect, foundAt, buf, fields, data', HostBegin(foundAt), a)
  {
    var tags, a := Tags(isConnect, buf), data[HOST].off;
    forall i | 0 <= i < |buf| ensures tags[i] == Of(HOST) <==> a <= i < a + data[HOST].len {
      assert Holds(fields, data, HOST, i) <==> tags[i] == Of(HOST);
    }
    if HOST in fields {
      HostSame(isConnect, foundAt, buf, 0, a);
      var data', mid := data[HOST := Slice(a, 0)], MidTags(isConnect, foundAt, buf, a);
      forall f: Uf, i: nat {:trigger Holds(fields, data', f, i)} | i < |buf|
        ensures Holds(fields, data', f, i) <==> mid[i] == Of(f)
      {
        assert Holds(fields, data, f, i) <==> tags[i] == Of(f);
      }
    }
  }

  /** After the second pass. */
  lemma {:induction false} HostEnds(isConnect: bool, foundAt: bool, buf: string, fields: set<Uf>, data: Slices,
                                    s: HostState, a: nat, b: nat)
    requires ServerIs(isConnect, buf, a, b)
    requires Second(isConnect, foundAt, buf, fields, data, s, b) ||
      (HOST !in fields && a == b && s == HostBegin(foundAt))
    ensures s == HostAfter(isConnect, foundAt, buf)
    ensures HostComplete(s) ==>
      Described(fields, data, MidTags(isConnect, foundAt, buf, |buf|)) && NoneEmpty(fields, data)
  {
    assert buf[..|buf|] == buf;
    if HOST in fields {
      HostSame(isConnect, foundAt, buf, b, |buf|);
      assert MidTags(isConnect, foundAt, buf, b) == MidTags(isConnect, foundAt, buf, |buf|);
    } else {
      HostSame(isConnect, foundAt, buf, 0, |buf|);
    }
  }

  /** Without a server part the first pass has the final say. */
  lemma {:induction false} NoServer(isConnect: bool, foundAt: bool, buf: string, fields: set<Uf>, data: Slices)
    requires Described(fields, data, Tags(isConnect, buf)) && NoneEmpty(fields, data) && HOST !in fields
    ensures Described(fields, data, MidTags(isConnect, foundAt, buf, |buf|))
    ensures HostAfter(isConnect, foundAt, buf) == HostBegin(foundAt)
  {
    var tags := Tags(isConnect, buf);
    forall i | 0 <= i < |buf|
      ensures tags[i] != Of(HOST)
    {
      assert Holds(fields, data, HOST, i) <==> tags[i] == Of(HOST);
    }
    assert MidTags(isConnect, foundAt, buf, |buf|) == tags;
    HostSame(isConnect, foundAt, buf, 0, |buf|);
    assert buf[..|buf|] == buf;
  }

  lemma {:induction false} AllFieldsAre(isConnect: bool, buf: string, fields: set<Uf>, data: Slices)
    requires Described(fields, data, FinalTags(isConnect, buf)) && NoneEmpty(fields, data)
    ensures fields == {HOST, PORT} <==> forall f: Uf ::
      HasField(FinalTags(isConnect, buf), f) <==> f == HOST || f == PORT
  {
    var tags := FinalTags(isConnect, buf);
    forall f: Uf ensures f in fields <==> HasField(tags, f) { FieldsAre(fields, data, tags, f); }
  }

  lemma {:induction false} PortSlice(isConnect: bool, buf: string, fields: set<Uf>, data: Slices)
    requires Described(fields, data, FinalTags(isConnect, buf)) && NoneEmpty(fields, data) && PORT in fields
    ensures data[PORT].off < |buf| && IsNum(buf[data[PORT].off])
  {
    assert Holds(fields, data, PORT, data[PORT].off);
    PortByte(isConnect, buf, data[PORT].off);
  }

  /** What strtoul reads is the port's slice. */
  lemma {:induction false} PortRead(isConnect: bool, buf: string, fields: set<Uf>, data: Slices, end: nat)
    requires Described(fields, data, FinalTags(isConnect, buf)) && NoneEmpty(fields, data) && PORT in fields
    requires Alive(isConnect, buf) && data[PORT].off < end <= |buf|
    requires (end < |buf| ==> !IsNum(buf[end])) && AllNum(buf[data[PORT].off..end])
    ensures buf[data[PORT].off..end] == PortText(isConnect, buf)
  {
    var tags, a, b := FinalTags(isConnect, buf), data[PORT].off, data[PORT].off + data[PORT].len;
    hide UrlAfter, Tags, HostAfter, MidTags, PartTag, SawAt;
    SliceIs(fields, data, tags, buf, PORT);
    assert Holds(fields, data, PORT, b - 1);
    if end < b {
      assert Holds(fields, data, PORT, end);
      PortByte(isConnect, buf, end);
    }
    if b < end {
      assert !Holds(fields, data, PORT, b) && buf[a..end][b - a] == buf[b];
      PortEnds(isConnect, buf, b - 1);
    }
  }

  lemma {:induction false} NoPort(isConnect: bool, buf: string, fields: set<Uf>, data: Slices)
    requires Described(fields, data, FinalTags(isConnect, buf)) && PORT !in fields
    ensures PortText(isConnect, buf) == ""
  {
    SliceUpTo(fields, data, FinalTags(isConnect, buf), buf, PORT, |buf|);
  }

  class Url {
    var fields: set<Uf>
    var port: nat
    var data: Slices

    /** The loop of http_parser_parse_url. */
    method FirstPass(buf: string, isConnect: bool) returns (r: int, foundAt: bool)
      requires |buf| <= 65535 && data[HOST] == Slice(0, 0)
      modifies this
      ensures r == (if UrlAfter(isConnect, buf) == DeadUrl then 1 else 0)
      ensures r == 0 ==>
        Described(fields, data, Tags(isConnect, buf)) && NoneEmpty(fields, data) && USERINFO !in fields &&
        PORT !in fields &&
        (HOST !in fields ==> data[HOST] == Slice(0, 0)) && foundAt == SawAt(isConnect, buf) && port == 0
    {
      hide UrlAfter, Tags, NextUrl, Described, Latest;
      port, fields := 0, {};
      Begins(isConnect, buf, data);
      var s, oldUf: Tag := UrlStart(isConnect), NoField;
      foundAt := false;
      var p := 0;
      while p < |buf|
        invariant First(isConnect, buf, oldUf, fields, data, s, p) && port == 0
        invariant foundAt == SawAt(isConnect, buf[..p])
        decreases |buf| - p
      {
        UrlStep(isConnect, buf, p);
        assert buf[..p + 1][..p] == buf[..p];
        ghost var was := s;
        s := NextUrl(s, buf[p]);
        if s.DeadUrl? {
          DeadStays(isConnect, buf, p + 1);
          return 1, foundAt;
        }
        if s == In(ServerWithAt) { foundAt := true; }
        var uf := PartTag(s);
        if uf.NoField? {
          SkipStep(isConnect, buf, oldUf, fields, data, was, p);
        } else if uf == oldUf {
          SameStep(isConnect, buf, oldUf, fields, data, was, p);
          data := data[uf.field := Slice(data[uf.field].off, U16(data[uf.field].len + 1))];
        } else {
          NewStep(isConnect, buf, oldUf, fields, data, was, p, uf.field);
          data, fields, oldUf := data[uf.field := Slice(U16(p), 1)], fields + {uf.field}, uf;
        }
        p := p + 1;
      }
      assert buf[..p] == buf;
      Ends(isConnect, buf, oldUf, fields, data, s);
      r := 0;
    }

    /** A byte of a field, which starts there or goes on. */
    method AddByte(f: Uf, p: nat, starts: bool)
      requires starts <==> !(f in fields && data[f].len > 0)
      modifies this`fields, this`data
      ensures fields == old(fields) + {f} && data == old(data)[f := Grown(old(fields), old(data), f, p)]
    {
      if starts {
        data := data[f := Slice(U16(p), 0)];
        fields := fields + {f};
      }
      data := data[f := Slice(data[f].off, U16(data[f].len + 1))];
      assert data == old(data)[f := Grown(old(fields), old(data), f, p)];
    }

    /** http_parse_host */
    method ParseHost(buf: string, foundAt: bool, ghost isConnect: bool) returns (r: int)
      requires |buf| <= 65535 && Described(fields, data, Tags(isConnect, buf)) && NoneEmpty(fields, data)
      requires USERINFO !in fields && PORT !in fields && (HOST !in fields ==> data[HOST] == Slice(0, 0))
      modifies this`fields, this`data
      ensures r == (if HostComplete(HostAfter(isConnect, foundAt, buf)) then 0 else 1)
      ensures r == 0 ==> Described(fields, data, MidTags(isConnect, foundAt, buf, |buf|)) && NoneEmpty(fields, data)
    {
      hide UrlAfter, Tags, Described, HostAfter, MidTags, Stage;
      var p, buflen := data[HOST].off, data[HOST].off + data[HOST].len;
      ServerPart(isConnect, foundAt, buf, fields, data);
      data := data[HOST := Slice(data[HOST].off, 0)];
      var s := HostBegin(foundAt);
      while p < buflen
        invariant p <= buflen && ServerIs(isConnect, buf, old(data)[HOST].off, buflen)
        invariant Second(isConnect, foundAt, buf, fields, data, s, p) ||
          (HOST !in fields && p == buflen == old(data)[HOST].off && s == HostBegin(foundAt))
        decreases buflen - p
      {
        var newS := NextHost(s, buf[p]);
        HostStep(isConnect, foundAt, buf, p);
        if newS.DeadHost? {
          HostDeadStays(isConnect, foundAt, buf, p + 1);
          return 1;
        }
        HostByte(isConnect, foundAt, buf, fields, data, s, p);
        var t := HostTag(newS);
        if t.Of? {
          AddByte(t.field, p, s != newS);
        }
        s, p := newS, p + 1;
      }
      HostEnds(isConnect, foundAt, buf, fields, data, s, old(data)[HOST].off, buflen);
      r := if HostComplete(s) then 0 else 1;
    }

    /** strtoul, on the digits at `off`. */
    method Strtoul(buf: string, off: nat) returns (v: nat, ghost end: nat)
      requires off < |buf| && IsNum(buf[off])
      ensures off < end <= |buf| && (end < |buf| ==> !IsNum(buf[end])) && AllNum(buf[off..end])
      ensures v == Number(buf[off..end])
    {
      var p := off;
      v := 0;
      while p < |buf| && IsNum(buf[p])
        invariant off <= p <= |buf| && AllNum(buf[off..p]) && v == Number(buf[off..p])
        decreases |buf| - p
      {
        OneMoreDigit(buf, off, p);
        v := 10 * v + (buf[p] as int - '0' as int);
        p := p + 1;
      }
      end := p;
    }

    /** http_parser_parse_url, on a result that is zeroed. It accepts exactly the texts
        that Accepts describes, finds their fields, and reads the port. */
    method ParseUrl(buf: string, isConnect: bool) returns (r: int)
      requires |buf| <= 65535 && data[HOST] == Slice(0, 0)
      modifies this
      ensures r == (if Accepts(isConnect, buf) then 0 else 1)
      ensures r == 0 ==> Described(fields, data, FinalTags(isConnect, buf)) && Split(fields, data, buf)
      ensures r == 0 ==> AllNum(PortText(isConnect, buf)) && port == Number(PortText(isConnect, buf))
    {
      hide UrlAfter, Tags, Described, HostAfter, MidTags, Split, BytesOf;
      var foundAt;
      r, foundAt := FirstPass(buf, isConnect);
      if r != 0 { return 1; }
      FieldsAre(fields, data, Tags(isConnect, buf), SCHEMA);
      FieldsAre(fields, data, Tags(isConnect, buf), HOST);
      if SCHEMA in fields || HOST in fields {
        r := ParseHost(buf, foundAt, isConnect);
        if r != 0 { return 1; }
      } else {
        NoServer(isConnect, foundAt, buf, fields, data);
      }
      PortIsNumber(isConnect, buf, |buf|);
      AllFieldsAre(isConnect, buf, fields, data);
      if isConnect && fields != {HOST, PORT} { return 1; }
      if PORT in fields {
        PortSlice(isConnect, buf, fields, data);
        ghost var end;
        var v;
        v, end := Strtoul(buf, data[PORT].off);
        PortRead(isConnect, buf, fields, data, end);
        if v > 0xffff { return 1; }
        port := U16(v);
      } else {
        NoPort(isConnect, buf, fields, data);
      }
      Splits(isConnect, buf, fields, data);
      r := 0;
    }
  }
}
