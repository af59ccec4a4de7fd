/** What the passes of dasm_x86.h do to a program: the most that its items can take, what
    they take after branches and alignments have shrunk, and the bytes that they become. */
module DynasmX86 {
  import opened DynasmLabels

  /** What dasm_put stores for an action; `slot` is the buffer position that it uses, and a
      branch uses the next one, too. `op` is the byte in front of a branch. */
  datatype Item =
    | Byte(b: nat)
    | Value(size: nat, n: int)
    | Absolute(address: int)
    | Space(fill: nat, count: nat)
    | Align(mask: nat, slot: nat)
    | Here(tag: Label, slot: nat)
    | Rel(op: nat, slot: nat)
    | Addr(slot: nat)

  predicate Slotted(x: Item) { x.Align? || x.Here? || x.Rel? || x.Addr? }

  /** The first position behind those of an item. */
  function Behind(x: Item): nat
    requires Slotted(x)
  {
    if x.Rel? then x.slot + 2 else x.slot + 1
  }

  predicate Mask(m: nat) { m in {0, 1, 3, 7, 15, 31, 63, 127, 255} }

  /** How much shorter a branch can be: jmp and jcc, by the last byte of the opcode. */
  function Shrink(op: nat): nat { if op == 0xe9 then 3 else if op / 16 == 8 then 4 else 0 }

  /** In front of a branch stands its opcode. */
  predicate Led(items: seq<Item>) {
    forall k {:trigger items[k]} :: 0 <= k < |items| && items[k].Rel? ==>
      k > 0 && items[k - 1] == Byte(items[k].op) && (Shrink(items[k].op) == 4 ==> k > 1 && items[k - 2] == Byte(0x0f))
  }

  // ----- estimates -----

  function MaxSize(x: Item): nat {
    match x
    case Byte(_) => 1
    case Value(size, _) => size
    case Absolute(_) => 4
    case Space(_, n) => n
    case Align(m, _) => m
    case Here(_, _) => 0
    case Rel(_, _) => 4
    case Addr(_) => 4
  }

  /** The offset behind the items, as pass 1 counts it. */
  function Estimate(items: seq<Item>): nat {
    if items == [] then 0 else Estimate(items[..|items| - 1]) + MaxSize(items[|items| - 1])
  }

  lemma {:induction false} EstimateAppend(a: seq<Item>, b: seq<Item>)
    ensures Estimate(a + b) == Estimate(a) + Estimate(b)
  {
    if b == [] {
      assert a + b == a;
    } else {
      EstimateAppend(a, b[..|b| - 1]);
      assert (a + b)[..|a + b| - 1] == a + b[..|b| - 1];
    }
  }

  // ----- true offsets -----

  predicate Aligned(o: nat, m: nat) { o % (m + 1) == 0 }

  /** The next aligned offset. */
  function AlignUp(o: nat, m: nat): nat { o + m - (o + m) % (m + 1) }

  lemma {:induction false} AlignUpBounds(o: nat, m: nat)
    ensures o <= AlignUp(o, m) <= o + m
  {
  }

  /** The offset behind an item at offset `o`; `f` is how much a branch is shrunk. */
  function After(x: Item, f: nat, o: nat): int {
    match x
    case Align(m, _) => AlignUp(o, m)
    case Rel(_, _) => o + 4 - f
    case _ => o + MaxSize(x)
  }

  predicate Flag(x: Item, f: nat) { if x.Rel? then f == 0 || f == Shrink(x.op) else f == 0 }

  predicate Flags(items: seq<Item>, fs: seq<nat>) {
    |fs| == |items| && forall k {:trigger items[k]} {:trigger fs[k]} :: 0 <= k < |items| ==> Flag(items[k], fs[k])
  }

  /** The offset behind the items. */
  function Offset(items: seq<Item>, fs: seq<nat>): nat
    requires Flags(items, fs)
  {
    if items == [] then 0
    else
      var n := |items| - 1;
      assert items[n] == items[n] && fs[n] == fs[n] && Flags(items[..n], fs[..n]);
      AlignUpBounds(Offset(items[..n], fs[..n]), MaxSize(items[n]));
      After(items[n], fs[n], Offset(items[..n], fs[..n]))
  }

  lemma {:induction false} OffsetNext(items: seq<Item>, fs: seq<nat>, k: nat)
    requires Flags(items, fs) && k < |items|
    ensures Flags(items[..k], fs[..k]) && Flags(items[..k + 1], fs[..k + 1])
    ensures Offset(items[..k + 1], fs[..k + 1]) == After(items[k], fs[k], Offset(items[..k], fs[..k]))
    ensures Estimate(items[..k + 1]) == Estimate(items[..k]) + MaxSize(items[k])
  {
    assert items[..k + 1][..k] == items[..k] && fs[..k + 1][..k] == fs[..k];
    assert items[..k + 1][k] == items[k] && fs[..k + 1][k] == fs[k];
  }

  lemma {:induction false} FlagsUpTo(items: seq<Item>, fs: seq<nat>, k: nat)
    requires Flags(items, fs) && k <= |items|
    ensures Flags(items[..k], fs[..k])
  {
  }

  lemma {:induction false} StepBounds(x: Item, f: nat, o: nat)
    requires Flag(x, f)
    ensures o <= After(x, f, o) <= o + MaxSize(x)
  {
    AlignUpBounds(o, MaxSize(x));
  }

  /** Between two places the program only got shorter than estimated. */
  lemma {:induction false} Distance(items: seq<Item>, fs: seq<nat>, j: nat, k: nat)
    requires Flags(items, fs) && j <= k <= |items|
    ensures Flags(items[..j], fs[..j]) && Flags(items[..k], fs[..k])
    ensures 0 <= Offset(items[..k], fs[..k]) - Offset(items[..j], fs[..j]) <=
      Estimate(items[..k]) - Estimate(items[..j])
    decreases k
  {
    hide Offset, Estimate, After, MaxSize;
    FlagsUpTo(items, fs, j);
    if j < k {
      Distance(items, fs, j, k - 1);
      OffsetNext(items, fs, k - 1);
      assert Flag(items[k - 1], fs[k - 1]);
      StepBounds(items[k - 1], fs[k - 1], Offset(items[..k - 1], fs[..k - 1]));
    }
  }

  // ----- short branches -----

  /** Where the label of the branch at `k` is, and that a branch that is short can reach
      it: exactly, if the label is behind, and by the estimate, if it is ahead. */
  predicate Near(items: seq<Item>, fs: seq<nat>, k: nat, m: nat)
    requires Flags(items, fs) && k < |items| && m < |items|
  {
    FlagsUpTo(items, fs, m);
    FlagsUpTo(items, fs, k + 1);
    fs[k] != 0 ==>
      if m > k then Estimate(items[..m]) - Estimate(items[..k + 1]) <= 127
      else Offset(items[..m], fs[..m]) - Offset(items[..k + 1], fs[..k + 1]) >= -128
  }

  /** The displacement of a branch, from its end to its label. */
  function Displacement(items: seq<Item>, fs: seq<nat>, k: nat, m: nat): int
    requires Flags(items, fs) && k < |items| && m < |items|
  {
    FlagsUpTo(items, fs, m);
    FlagsUpTo(items, fs, k + 1);
    Offset(items[..m], fs[..m]) - Offset(items[..k + 1], fs[..k + 1])
  }

  /** However the rest of the program shrinks, a short branch reaches its label with a
      displacement of one byte. */
  lemma {:induction false} ShortReaches(items: seq<Item>, fs: seq<nat>, k: nat, m: nat)
    requires Flags(items, fs) && k < |items| && m < |items| && m != k && Near(items, fs, k, m) && fs[k] != 0
    ensures -128 <= Displacement(items, fs, k, m) <= 127
  {
    if m > k {
      Distance(items, fs, k + 1, m);
    } else {
      Distance(items, fs, m, k + 1);
    }
  }

  // ----- bytes -----

  /** A number of `n` bytes, least significant first. */
  function LittleEndian(v: int, n: nat): (r: seq<nat>)
    ensures |r| == n
    decreases n
  {
    if n == 0 then [] else [v % 256] + LittleEndian(v / 256, n - 1)
  }

  function Unsigned(bytes: seq<nat>): nat { if bytes == [] then 0 else bytes[0] + 256 * Unsigned(bytes[1..]) }

  function Pow256(n: nat): nat { if n == 0 then 1 else 256 * Pow256(n - 1) }

  /** A number of `n` bytes in two's complement. */
  function Signed(bytes: seq<nat>): int {
    var u := Unsigned(bytes);
    if 2 * u < Pow256(|bytes|) then u else u - Pow256(|bytes|)
  }

  lemma {:induction false} Written(v: int, n: nat)
    ensures 0 <= Unsigned(LittleEndian(v, n)) < Pow256(n)
    ensures 0 <= v < Pow256(n) ==> Unsigned(LittleEndian(v, n)) == v
    ensures 0 - Pow256(n) <= v < 0 ==> Unsigned(LittleEndian(v, n)) == v + Pow256(n)
    decreases n
  {
    if n > 0 {
      Written(v / 256, n - 1);
      var b := LittleEndian(v, n);
      assert b[1..] == LittleEndian(v / 256, n - 1);
    }
  }

  /** What is written is read back, if it fits. */
  lemma {:induction false} ReadsBack(v: int, n: nat)
    requires n > 0 && 0 - Pow256(n) <= 2 * v < Pow256(n)
    ensures Signed(LittleEndian(v, n)) == v
  {
    Written(v, n);
  }

  function Repeat(b: nat, n: nat): (r: seq<nat>)
    ensures |r| == n
  {
    if n == 0 then [] else Repeat(b, n - 1) + [b]
  }

  // ----- what pass 1 stores -----

  ghost predicate IsRef(l: Links, q: nat) { exists j :: 0 <= j < |l.log| && l.log[j].Ref? && l.log[j].pos == q }

  ghost predicate IsDef(l: Links, q: nat, tag: Label) { exists j :: 0 <= j < |l.log| && l.log[j] == Def(q, tag) }

  /** The buffers hold what pass 1 stores for an item at the estimated offset `e`. */
  ghost predicate FilledItem(x: Item, e: nat, l: Links) {
    match x
    case Align(m, q) => q in l.cells && l.cells[q] == e + m && l.Plain(q) && l.NotRef(q)
    case Here(tag, q) => q in l.cells && l.cells[q] == e && l.NotRef(q) && IsDef(l, q, tag)
    case Rel(_, q) => q in l.cells && IsRef(l, q) && q + 1 in l.cells && l.cells[q + 1] == e + 4 && l.Plain(q + 1) &&
      l.NotRef(q + 1)
    case Addr(q) => q in l.cells && IsRef(l, q)
    case _ => true
  }

  ghost predicate Filled(items: seq<Item>, l: Links) {
    forall k {:trigger items[k]} :: 0 <= k < |items| ==> FilledItem(items[k], Estimate(items[..k]), l)
  }

  lemma {:induction false} FilledItemKept(x: Item, e: nat, l: Links, l': Links)
    requires FilledItem(x, e, l) && l.Extends(l')
    ensures FilledItem(x, e, l')
  {
    assert forall j :: 0 <= j < |l.log| ==> l'.log[j] == l.log[j];
  }

  lemma {:induction false} FilledKept(items: seq<Item>, l: Links, l': Links)
    requires Filled(items, l) && l.Extends(l')
    ensures Filled(items, l')
  {
    forall k {:trigger items[k]} | 0 <= k < |items| ensures FilledItem(items[k], Estimate(items[..k]), l') {
      FilledItemKept(items[k], Estimate(items[..k]), l, l');
    }
  }

  lemma {:induction false} FilledNext(items: seq<Item>, x: Item, l: Links)
    requires Filled(items, l) && FilledItem(x, Estimate(items), l)
    ensures Filled(items + [x], l) && Estimate(items + [x]) == Estimate(items) + MaxSize(x)
  {
    var more := items + [x];
    assert more[..|items|] == items;
    forall k {:trigger more[k]} | 0 <= k < |more| ensures FilledItem(more[k], Estimate(more[..k]), l) {
      if k < |items| { assert more[..k] == items[..k] && more[k] == items[k]; }
    }
  }

  /** The positions of the items lie one behind the other. */
  predicate InLine(items: seq<Item>, lo: nat, hi: nat) {
    lo <= hi &&
    (forall k {:trigger items[k]} :: 0 <= k < |items| && Slotted(items[k]) ==>
      lo <= items[k].slot && Behind(items[k]) <= hi) &&
    forall j, k {:trigger items[j], items[k]} :: 0 <= j < k < |items| && Slotted(items[j]) && Slotted(items[k]) ==>
      Behind(items[j]) <= items[k].slot
  }

  lemma {:induction false} InLineNext(items: seq<Item>, x: Item, lo: nat, q: nat, q': nat)
    requires InLine(items, lo, q) && q <= q' && (Slotted(x) ==> x.slot == q && Behind(x) == q')
    ensures InLine(items + [x], lo, q')
  {
    var more := items + [x];
    forall k {:trigger more[k]} | 0 <= k < |more| && Slotted(more[k])
      ensures lo <= more[k].slot && Behind(more[k]) <= q'
    {
      if k < |items| { assert more[k] == items[k]; }
    }
    forall j, k {:trigger more[j], more[k]} | 0 <= j < k < |more| && Slotted(more[j]) && Slotted(more[k])
      ensures Behind(more[j]) <= more[k].slot
    {
      assert more[j] == items[j];
      if k < |items| { assert more[k] == items[k]; }
    }
  }

  function SecPos(s: nat): nat { s * 0x1000000 }

  /** A section: its items, the end of its buffer, and its estimated size. */
  ghost predicate SecOk(s: nat, items: seq<Item>, z: nat, e: nat, l: Links) {
    InLine(items, SecPos(s), z) && z <= SecPos(s + 1) && Filled(items, l) && e == Estimate(items) &&
    forall q {:trigger q in l.cells} :: z <= q < SecPos(s + 1) ==> q !in l.cells
  }

  /** What one action put: its item, at position `q` and the estimated offset `e`. */
  ghost predicate Stepped(l0: Links, l: Links, x: Item, e: nat, q: nat, q': nat, events: seq<Event>) {
    l.Ok() && l0.Extends(l) && FilledItem(x, e, l) && l.log == l0.log + events && q <= q' &&
    (Slotted(x) ==> x.slot == q && Behind(x) == q') && (forall y :: y in l.cells ==> y in l0.cells || q <= y < q') &&
    (forall j :: 0 <= j < |events| && events[j].Def? ==> x == Here(events[j].tag, events[j].pos))
  }

  lemma {:induction false} SecKept(s: nat, items: seq<Item>, z: nat, e: nat, l: Links, l': Links, s': nat, q: nat,
                                   q': nat)
    requires SecOk(s, items, z, e, l) && l.Extends(l') && s != s' && SecPos(s') <= q <= q' <= SecPos(s' + 1)
    requires forall y :: y in l'.cells ==> y in l.cells || q <= y < q'
    ensures SecOk(s, items, z, e, l')
  {
    FilledKept(items, l, l');
    if s < s' { assert SecPos(s + 1) <= SecPos(s'); } else { assert SecPos(s' + 1) <= SecPos(s); }
  }

  lemma {:induction false} SecNext(s: nat, items: seq<Item>, q: nat, e: nat, l: Links, l': Links, x: Item, q': nat,
                                   ev: seq<Event>)
    requires SecOk(s, items, q, e, l) && Stepped(l, l', x, e, q, q', ev) && q' <= SecPos(s + 1)
    ensures SecOk(s, items + [x], q', e + MaxSize(x), l')
  {
    FilledKept(items, l, l');
    FilledNext(items, x, l');
    InLineNext(items, x, SecPos(s), q, q');
  }

  ghost predicate SecsOk(code: seq<seq<Item>>, pos: seq<nat>, ofs: seq<nat>, l: Links) {
    |code| == |pos| == |ofs| && Within(l.cells, |code|) &&
    forall s {:trigger code[s]} :: 0 <= s < |code| ==> SecOk(s, code[s], pos[s], ofs[s], l)
  }

  /** Every position that is used is one of the first `n` sections. */
  predicate Within(cells: map<nat, int>, n: nat) { forall q {:trigger q in cells} :: q in cells ==> q < SecPos(n) }

  /** The position `q` at the end of section `s` used for a value. */
  lemma {:induction false} SecsStored(code: seq<seq<Item>>, pos: seq<nat>, ofs: seq<nat>, l: Links, s: nat, v: int)
    requires SecsOk(code, pos, ofs, l) && l.Ok() && s < |code| && pos[s] + 1 <= SecPos(s + 1)
    ensures pos[s] !in l.cells && l.NotRef(pos[s])
    ensures var l' := l.(cells := l.cells[pos[s] := v]);
      l'.Ok() && l.Extends(l') && SecsOk(code, pos[s := pos[s] + 1], ofs, l')
  {
    var q, pos', l' := pos[s], pos[s := pos[s] + 1], l.(cells := l.cells[pos[s] := v]);
    assert SecOk(s, code[s], pos[s], ofs[s], l);
    l.StoredExtends(q, v);
    l.PlainStored(q, v);
    hide Links.Ok, Links.Extends;
    assert SecPos(s + 1) <= SecPos(|code|);
    forall t {:trigger code[t]} | 0 <= t < |code| ensures SecOk(t, code[t], pos'[t], ofs[t], l') {
      if t == s { FilledKept(code[t], l, l'); }
      else { SecKept(t, code[t], pos[t], ofs[t], l, l', s, q, q + 1); }
    }
  }

  lemma {:induction false} SecsNext(code: seq<seq<Item>>, pos: seq<nat>, ofs: seq<nat>, l: Links, l': Links, s: nat,
                                    x: Item, q': nat, ev: seq<Event>)
    requires SecsOk(code, pos, ofs, l) && s < |code| && Stepped(l, l', x, ofs[s], pos[s], q', ev) && q' <= SecPos(s + 1)
    ensures SecsOk(code[s := code[s] + [x]], pos[s := q'], ofs[s := ofs[s] + MaxSize(x)], l')
  {
    hide SecOk, Stepped;
    var code' := code[s := code[s] + [x]];
    SecRange(s, code[s], pos[s], ofs[s], l);
    SteppedMeans(l, l', x, ofs[s], pos[s], q', ev);
    assert SecPos(s + 1) <= SecPos(|code|);
    forall t {:trigger code'[t]} | 0 <= t < |code'|
      ensures SecOk(t, code'[t], pos[s := q'][t], ofs[s := ofs[s] + MaxSize(x)][t], l')
    {
      if t == s { SecNext(s, code[s], pos[s], ofs[s], l, l', x, q', ev); }
      else { SecKept(t, code[t], pos[t], ofs[t], l, l', s, pos[s], q'); }
    }
  }

  lemma {:induction false} SecRange(s: nat, items: seq<Item>, z: nat, e: nat, l: Links)
    requires SecOk(s, items, z, e, l)
    ensures SecPos(s) <= z <= SecPos(s + 1)
  {
  }

  lemma {:induction false} SteppedMeans(l0: Links, l: Links, x: Item, e: nat, q: nat, q': nat, events: seq<Event>)
    requires Stepped(l0, l, x, e, q, q', events)
    ensures l0.Extends(l) && q <= q' && forall y :: y in l.cells ==> y in l0.cells || q <= y < q'
  {
  }

  /** Every definition is a label of some section. */
  ghost predicate DefsPlaced(code: seq<seq<Item>>, log: seq<Event>) {
    forall j {:trigger log[j]} :: 0 <= j < |log| && log[j].Def? ==> HasLabel(code, log[j].pos, log[j].tag)
  }

  ghost predicate HasLabel(code: seq<seq<Item>>, q: nat, tag: Label) {
    exists s, i :: LabelAt(code, s, i, q, tag)
  }

  predicate LabelAt(code: seq<seq<Item>>, s: int, i: int, q: nat, tag: Label) {
    0 <= s < |code| && 0 <= i < |code[s]| && code[s][i] == Here(tag, q)
  }

  lemma {:induction false} LabelKept(code: seq<seq<Item>>, s: nat, x: Item, q: nat, tag: Label)
    requires s < |code| && (HasLabel(code, q, tag) || x == Here(tag, q))
    ensures HasLabel(code[s := code[s] + [x]], q, tag)
  {
    var code' := code[s := code[s] + [x]];
    if HasLabel(code, q, tag) {
      var t, i :| LabelAt(code, t, i, q, tag);
      assert LabelAt(code', t, i, q, tag);
    } else {
      assert LabelAt(code', s, |code[s]|, q, tag);
    }
  }

  lemma {:induction false} DefsNext(code: seq<seq<Item>>, s: nat, l: Links, l': Links, x: Item, e: nat, q: nat, q': nat,
                                    ev: seq<Event>)
    requires DefsPlaced(code, l.log) && s < |code| && Stepped(l, l', x, e, q, q', ev)
    ensures DefsPlaced(code[s := code[s] + [x]], l'.log)
  {
    var code', log := code[s := code[s] + [x]], l'.log;
    forall j {:trigger log[j]} | 0 <= j < |log| && log[j].Def? ensures HasLabel(code', log[j].pos, log[j].tag) {
      if j < |l.log| { assert log[j] == l.log[j]; } else { assert log[j] == ev[j - |l.log|]; }
      LabelKept(code, s, x, log[j].pos, log[j].tag);
    }
  }
}
