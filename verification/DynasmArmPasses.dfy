/** What the three passes of dasm_arm.h keep: what pass 1 stores in the section buffers,
    the true offsets that pass 2 puts there, and the words that pass 3 writes. */
module DynasmArmPasses {
  import opened DynasmLabels
  import opened DynasmArm

  datatype Status =
    | S_OK
    | S_PHASE
    | S_RANGE_I(at: nat)
    | S_RANGE_SEC(at: nat)
    | S_RANGE_LG(at: nat)
    | S_RANGE_PC(at: nat)
    | S_RANGE_REL(at: nat)
    | S_UNDEF_LG(at: nat)
    | S_UNDEF_PC(pc: nat)

  /** Where the buffer positions of a section start (DASM_SEC2POS). */
  function SecPos(s: nat): nat { s * 0x1000000 }

  // ----- what pass 1 stores -----

  ghost predicate IsDef(l: Links, q: nat) { exists j :: 0 <= j < |l.log| && l.log[j].Def? && l.log[j].pos == q }

  ghost predicate IsRef(l: Links, q: nat) { exists j :: 0 <= j < |l.log| && l.log[j].Ref? && l.log[j].pos == q }

  /** The buffers hold what pass 1 stores for an item at the estimated offset `e`. */
  ghost predicate FilledItem(i: Item, e: nat, l: Links) {
    match i
    case Code(_) => true
    case Align(m, q) => q in l.cells && l.cells[q] == e + m && l.Plain(q) && l.NotRef(q)
    case Label(_, q) => q in l.cells && l.cells[q] == e && l.NotRef(q) && IsDef(l, q)
    case Rel(_, q) => q in l.cells && IsRef(l, q)
    case Imm(_, q) => q in l.cells && l.Plain(q) && l.NotRef(q)
  }

  ghost predicate Filled(items: seq<Item>, e: nat, l: Links)
    decreases |items|
  {
    items == [] || (FilledItem(items[0], e, l) && Filled(items[1..], e + MaxSize(items[0]), l))
  }

  lemma {:induction false} FilledItemKept(i: Item, e: nat, l: Links, l': Links)
    requires FilledItem(i, e, l) && l.Extends(l')
    ensures FilledItem(i, e, l')
  {
    assert forall j :: 0 <= j < |l.log| ==> l'.log[j] == l.log[j];
  }

  lemma {:induction false} FilledKept(items: seq<Item>, e: nat, l: Links, l': Links)
    requires Filled(items, e, l) && l.Extends(l')
    ensures Filled(items, e, l')
    decreases |items|
  {
    if items != [] {
      FilledItemKept(items[0], e, l, l');
      FilledKept(items[1..], e + MaxSize(items[0]), l, l');
    }
  }

  lemma {:induction false} FilledSnoc(items: seq<Item>, x: Item, e: nat, l: Links)
    requires Filled(items, e, l) && FilledItem(x, e + Estimate(items), l)
    ensures Filled(items + [x], e, l) && Estimate(items + [x]) == Estimate(items) + MaxSize(x)
    decreases |items|
  {
    if items == [] {
      assert items + [x] == [x];
    } else {
      FilledSnoc(items[1..], x, e + MaxSize(items[0]), l);
      assert (items + [x])[1..] == items[1..] + [x];
    }
  }

  /** What putting the list from `p` stores at position `q`: its start, then what its
      items store. */
  ghost predicate ListStored(list: ActionList, p: nat, q: nat, e: nat, l: Links)
    requires list.Formed(p)
  {
    q in l.cells && l.Plain(q) && l.NotRef(q) && l.cells[q] == p && Filled(list.Items(p, q + 1), e, l)
  }

  /** A section buffer: what each list that was put stores. */
  ghost predicate Stored(list: ActionList, starts: seq<nat>, q: nat, e: nat, l: Links)
    requires list.AllFormed(starts)
    decreases |starts|
  {
    starts == [] ||
    (ListStored(list, starts[0], q, e, l) &&
     Stored(list, starts[1..], q + 1 + list.Slots(starts[0]), e + Estimate(list.Items(starts[0], q + 1)), l))
  }

  lemma {:induction false} StoredKept(list: ActionList, starts: seq<nat>, q: nat, e: nat, l: Links, l': Links)
    requires list.AllFormed(starts)
    requires Stored(list, starts, q, e, l) && l.Extends(l')
    ensures Stored(list, starts, q, e, l')
    decreases |starts|
  {
    if starts != [] {
      FilledKept(list.Items(starts[0], q + 1), e, l, l');
      StoredKept(list, starts[1..], q + 1 + list.Slots(starts[0]), e + Estimate(list.Items(starts[0], q + 1)), l, l');
    }
  }

  lemma {:induction false} StoredSnoc(list: ActionList, starts: seq<nat>, p: nat, q: nat, e: nat, l: Links)
    requires list.AllFormed(starts) && list.Formed(p) && list.Patching(p, false)
    requires Stored(list, starts, q, e, l)
    requires ListStored(list, p, list.End(starts, q), e + Estimate(list.Blocks(starts, q)), l)
    ensures list.AllFormed(starts + [p]) && Stored(list, starts + [p], q, e, l)
    decreases |starts|
  {
    list.AllFormedSnoc(starts, p);
    if starts == [] {
      assert [p][1..] == [];
    } else {
      var items, q', rest := list.Items(starts[0], q + 1), q + 1 + list.Slots(starts[0]), starts[1..];
      assert list.Blocks(starts, q) == items + list.Blocks(rest, q') && list.End(starts, q) == list.End(rest, q');
      EstimateAppend(items, list.Blocks(rest, q'));
      StoredSnoc(list, rest, p, q', e + Estimate(items), l);
      var more := starts + [p];
      assert more[1..] == rest + [p] && more[0] == starts[0];
      assert Stored(list, more[1..], q', e + Estimate(items), l);
    }
  }

  // ----- what a list refers to -----

  /** The references and definitions of the list from `p` on. */
  function Events(list: ActionList, p: nat, q: nat, args: seq<int>): seq<Event>
    requires list.Formed(p) && list.Args(p) <= |args|
    decreases |list.words| - p
  {
    if list.Last(p) then []
    else
      var q', args' := if list.Slotted(p) then q + 1 else q, if list.Argued(p) then args[1..] else args;
      EventAt(list.words[p], q, if list.Argued(p) then args[0] else 0) + Events(list, list.Next(p), q', args')
  }

  /** A local label with digit `d` is 10 + d; a forward reference to it is d. */
  function EventAt(ins: nat, q: nat, n: int): seq<Event> {
    var a, i := Action(ins), ins % 2048;
    if a == DASM_REL_LG then [if i < 10 then Ref(q, Lg(i), true) else Ref(q, Lg(i - 10), false)]
    else if a == DASM_LABEL_LG && i >= 10 then [Def(q, Lg(i - 10))]
    else if a == DASM_REL_PC && n >= 0 then [Ref(q, Pc(n), false)]
    else if a == DASM_LABEL_PC && n >= 0 then [Def(q, Pc(n))]
    else []
  }

  ghost predicate LabelIn(items: seq<Item>, q: nat) {
    exists k :: 0 <= k < |items| && items[k].Label? && items[k].slot == q
  }

  lemma {:induction false} LabelInAppend(a: seq<Item>, b: seq<Item>, q: nat)
    requires LabelIn(a, q) || LabelIn(b, q)
    ensures LabelIn(a + b, q)
  {
    if LabelIn(a, q) {
      var k :| 0 <= k < |a| && a[k].Label? && a[k].slot == q;
      assert (a + b)[k] == a[k];
    } else {
      var k :| 0 <= k < |b| && b[k].Label? && b[k].slot == q;
      assert (a + b)[|a| + k] == b[k];
    }
  }

  /** Every definition of a list is one of its label items. */
  lemma {:induction false} DefinedIn(list: ActionList, p: nat, q: nat, args: seq<int>, j: nat)
    requires list.Formed(p) && list.Args(p) <= |args|
    requires j < |Events(list, p, q, args)| && Events(list, p, q, args)[j].Def?
    ensures LabelIn(list.Items(p, q), Events(list, p, q, args)[j].pos)
    decreases |list.words| - p
  {
    var q', args' := if list.Slotted(p) then q + 1 else q, if list.Argued(p) then args[1..] else args;
    var now := EventAt(list.words[p], q, if list.Argued(p) then args[0] else 0);
    var items, rest := list.Items(p, q), list.Items(list.Next(p), q');
    assert items == [list.ItemAt(p, q)] + rest;
    if j < |now| {
      assert items[0].Label? && items[0].slot == q;
    } else {
      DefinedIn(list, list.Next(p), q', args', j - |now|);
      LabelInAppend([list.ItemAt(p, q)], rest, Events(list, p, q, args)[j].pos);
    }
  }

  /** One item put at position `q`: from `l0` to `l` only that position is new. */
  ghost predicate Stepped(l0: Links, l: Links, i: Item, e: nat, q: nat, events: seq<Event>) {
    l.Ok() && l0.Extends(l) && l.cells.Keys == l0.cells.Keys + {q} && FilledItem(i, e, l) && l.log == l0.log + events
  }

  lemma {:induction false} RelStepped(l0: Links, ins: nat, q: nat, tag: Label, fwd: bool, e: nat)
    requires l0.Ok() && q > 0 && q !in l0.cells && l0.InRange(tag)
    requires if fwd then Local(tag) else Local(tag) ==> l0.Head(tag) < 0
    ensures var l := if !fwd && l0.Head(tag) < 0 then l0.Bound(q, tag) else l0.Chained(q, tag, fwd);
      Stepped(l0, l, Rel(ins, q), e, q, [Ref(q, tag, fwd)])
  {
    var l := if !fwd && l0.Head(tag) < 0 then l0.Bound(q, tag) else l0.Chained(q, tag, fwd);
    if !fwd && l0.Head(tag) < 0 {
      l0.BoundOk(q, tag);
      l0.BoundExtends(q, tag);
    } else {
      l0.ChainedOk(q, tag, fwd);
      l0.ChainedExtends(q, tag, fwd);
    }
    assert l.log[|l0.log|] == Ref(q, tag, fwd);
  }

  lemma {:induction false} LabelStepped(l0: Links, ins: nat, q: nat, tag: Label, e: nat)
    requires l0.Ok() && q > 0 && q !in l0.cells && l0.InRange(tag)
    ensures forall k {:trigger l0.Chain(tag)[k]} :: 0 <= k < |l0.Chain(tag)| ==> l0.Chain(tag)[k] < |l0.log|
    ensures Stepped(l0, l0.Defined(q, tag, e), DynasmArm.Label(ins, q), e, q, [Def(q, tag)])
  {
    l0.DefinedOk(q, tag, e);
    l0.DefinedExtends(q, tag, e);
    l0.DefinedCells(q, tag, e);
    var l := l0.Defined(q, tag, e);
    assert l.log[|l0.log|] == Def(q, tag);
  }

  // ----- what dasm_put does -----

  /** What dasm_put checks of an action with argument `n`. */
  function ActionStatus(list: ActionList, p: nat, n: int, l: Links): Status
    requires p < |list.words|
  {
    var ins, a, x := list.words[p], list.Act(p), list.words[p] % 2048;
    if a == DASM_REL_LG then
      if x >= 10 && (x - 10 >= |l.lg| || (x < 20 && l.lg[x - 10] >= 0)) then S_RANGE_LG(p) else S_OK
    else if a == DASM_LABEL_LG then
      if x < 10 || x - 10 >= |l.lg| then S_RANGE_LG(p) else S_OK
    else if a == DASM_REL_PC || a == DASM_LABEL_PC then
      if 0 <= n < |l.pc| then S_OK else S_RANGE_PC(p)
    else if DASM_IMM <= a < DASM_MAX && !ImmOk(ins, n) then S_RANGE_I(p)
    else S_OK
  }

  function RefLinks(l: Links, q: nat, tag: Label): Links {
    if !l.InRange(tag) then l else if l.Head(tag) < 0 then l.Bound(q, tag) else l.Chained(q, tag, false)
  }

  ghost function DefLinks(l: Links, q: nat, tag: Label, e: int): Links {
    if l.InRange(tag) && forall k {:trigger l.Chain(tag)[k]} :: 0 <= k < |l.Chain(tag)| ==> l.Chain(tag)[k] < |l.log|
    then l.Defined(q, tag, e) else l
  }

  /** What it stores for an action that uses position `q`, at the estimated offset `e`. */
  ghost function ActionLinks(list: ActionList, p: nat, q: nat, e: nat, n: int, l: Links): Links
    requires p < |list.words|
  {
    var ins, a, x := list.words[p], list.Act(p), list.words[p] % 2048;
    if a == DASM_ALIGN then l.(cells := l.cells[q := e + ins % 256])
    else if a == DASM_REL_LG then
      if x >= 10 then RefLinks(l, q, Lg(x - 10)) else if l.InRange(Lg(x)) then l.Chained(q, Lg(x), true) else l
    else if a == DASM_LABEL_LG then (if x >= 10 then DefLinks(l, q, Lg(x - 10), e) else l)
    else if a == DASM_REL_PC then (if n >= 0 then RefLinks(l, q, Pc(n)) else l)
    else if a == DASM_LABEL_PC then (if n >= 0 then DefLinks(l, q, Pc(n), e) else l)
    else l.(cells := l.cells[q := ImmValue(ins, n)])
  }

  /** The actions from `p` on: the first error, or the state behind them. */
  ghost function ListPut(list: ActionList, p: nat, q: nat, e: nat, args: seq<int>, l: Links): (r: (Status, Links))
    requires list.Formed(p) && list.Args(p) <= |args|
    ensures r.0 != S_PHASE
    decreases |list.words| - p
  {
    if list.Last(p) then (S_OK, l)
    else
      var n, rest := if list.Argued(p) then args[0] else 0, if list.Argued(p) then args[1..] else args;
      var e' := e + MaxSize(list.ItemAt(p, q));
      if !list.Slotted(p) then ListPut(list, list.Next(p), q, e', rest, l)
      else if ActionStatus(list, p, n, l) != S_OK then (ActionStatus(list, p, n, l), l)
      else ListPut(list, list.Next(p), q + 1, e', rest, ActionLinks(list, p, q, e, n, l))
  }

  lemma {:induction false} ListPutNext(list: ActionList, p: nat, q: nat, e: nat, args: seq<int>, l: Links, l': Links,
                                       st: Status)
    requires list.Formed(p) && list.Args(p) <= |args| && !list.Last(p)
    requires var n := if list.Argued(p) then args[0] else 0;
      if list.Slotted(p) then
        st == ActionStatus(list, p, n, l) && (st == S_OK ==> l' == ActionLinks(list, p, q, e, n, l))
      else st == S_OK && l' == l
    ensures var q', rest := if list.Slotted(p) then q + 1 else q, if list.Argued(p) then args[1..] else args;
      if st != S_OK then ListPut(list, p, q, e, args, l).0 == st
      else
        ListPut(list, p, q, e, args, l) == ListPut(list, list.Next(p), q', e + MaxSize(list.ItemAt(p, q)), rest, l')
  {
  }

  lemma {:induction false} ListPutEnds(list: ActionList, p: nat, q: nat, e: nat, args: seq<int>, l: Links)
    requires list.Formed(p) && list.Args(p) <= |args| && list.Last(p)
    ensures ListPut(list, p, q, e, args, l) == (S_OK, l)
  {
  }

  /** A whole list, put from position `q0` and offset `e0` on. */
  ghost function Putting(list: ActionList, start: nat, q0: nat, e0: nat, args: seq<int>, l: Links): (Status, Links)
    requires list.Formed(start) && list.Args(start) <= |args|
  {
    ListPut(list, start, q0 + 1, e0, args, l.(cells := l.cells[q0 := start]))
  }

  /** The outcome of dasm_put: the first action that fails, or a section that does not
      exist. */
  ghost function PutStatus(list: ActionList, start: nat, q0: nat, e0: nat, args: seq<int>, l: Links, sections: nat)
    : (st: Status)
    requires list.Formed(start) && list.Args(start) <= |args|
    ensures st != S_PHASE
  {
    var st, z := Putting(list, start, q0, e0, args, l).0, list.Stop(start);
    if st == S_OK && list.Act(z) == DASM_SECTION && list.words[z] % 256 >= sections then S_RANGE_SEC(z) else st
  }

  // ----- dasm_put in the middle of a list -----

  /** What is put, and where dasm_put is: in the list, the buffer, and the arguments. */
  datatype Progress = Progress(done: seq<Item>, events: seq<Event>, p: nat, q: nat, e: nat, rest: seq<int>)

  function StartOf(start: nat, q0: nat, e0: nat, args: seq<int>): Progress {
    Progress([], [], start, q0 + 1, e0, args)
  }

  function Advance(list: ActionList, g: Progress): Progress
    requires g.p < |list.words| && (list.Act(g.p) == DASM_ESC ==> g.p + 1 < |list.words|)
    requires list.Argued(g.p) ==> g.rest != []
  {
    var x := list.ItemAt(g.p, g.q);
    Progress(g.done + [x], g.events + EventAt(list.words[g.p], g.q, if list.Argued(g.p) then g.rest[0] else 0),
             list.Next(g.p), if list.Slotted(g.p) then g.q + 1 else g.q, g.e + MaxSize(x),
             if list.Argued(g.p) then g.rest[1..] else g.rest)
  }

  /** What is put and what is left make up the list. */
  ghost predicate Along(list: ActionList, start: nat, q0: nat, args: seq<int>, g: Progress) {
    list.Formed(start) && list.Args(start) <= |args| && list.Formed(g.p) && list.Args(g.p) <= |g.rest| &&
    g.done + list.Items(g.p, g.q) == list.Items(start, q0 + 1) &&
    g.q + list.Slots(g.p) == q0 + 1 + list.Slots(start) && g.q > q0 &&
    g.events + Events(list, g.p, g.q, g.rest) == Events(list, start, q0 + 1, args)
  }

  lemma {:induction false} AlongNext(list: ActionList, start: nat, q0: nat, args: seq<int>, g: Progress)
    requires Along(list, start, q0, args, g) && !list.Last(g.p)
    ensures Along(list, start, q0, args, Advance(list, g))
  {
    var h := Advance(list, g);
    assert h.done + list.Items(h.p, h.q) == g.done + list.Items(g.p, g.q);
    assert h.events + Events(list, h.p, h.q, h.rest) == g.events + Events(list, g.p, g.q, g.rest);
  }

  /** The buffers hold what is put, from position `q0` and offset `e0` on. */
  ghost predicate Holding(l0: Links, l: Links, start: nat, q0: nat, e0: nat, g: Progress) {
    l.Ok() && l0.Extends(l) && l.log == l0.log + g.events && Filled(g.done, e0, l) &&
    g.e == e0 + Estimate(g.done) && q0 in l.cells && l.Plain(q0) && l.NotRef(q0) && l.cells[q0] == start &&
    forall x :: x in l.cells ==> x in l0.cells || q0 <= x < g.q
  }

  lemma {:induction false} HoldingNext(l0: Links, l: Links, l': Links, list: ActionList,
                                       start: nat, q0: nat, e0: nat, g: Progress)
    requires Holding(l0, l, start, q0, e0, g) && g.q >= q0
    requires g.p < |list.words| && (list.Act(g.p) == DASM_ESC ==> g.p + 1 < |list.words|)
    requires list.Argued(g.p) ==> g.rest != []
    requires var n := if list.Argued(g.p) then g.rest[0] else 0;
      if list.Slotted(g.p) then Stepped(l, l', list.ItemAt(g.p, g.q), g.e, g.q, EventAt(list.words[g.p], g.q, n))
      else l' == l && list.ItemAt(g.p, g.q).Code?
    ensures Holding(l0, l', start, q0, e0, Advance(list, g))
  {
    var h, x := Advance(list, g), list.ItemAt(g.p, g.q);
    if list.Slotted(g.p) {
      l0.ExtendsFurther(l, l');
      FilledKept(g.done, e0, l, l');
      assert l'.log == l0.log + h.events;
    } else {
      assert h.events == g.events;
    }
    FilledSnoc(g.done, x, e0, l');
  }

  /** Nothing is put yet but the start of the list. */
  lemma {:induction false} ListStarts(list: ActionList, start: nat, q0: nat, e0: nat, args: seq<int>, l0: Links)
    requires list.Formed(start) && list.Args(start) <= |args| && l0.Ok() && q0 !in l0.cells
    ensures var l := l0.(cells := l0.cells[q0 := start]);
      Along(list, start, q0, args, StartOf(start, q0, e0, args)) &&
      Holding(l0, l, start, q0, e0, StartOf(start, q0, e0, args))
  {
    l0.StoredExtends(q0, start);
    l0.PlainStored(q0, start);
    assert l0.log + [] == l0.log;
  }

  /** What the next action can rely on. */
  lemma {:induction false} TurnReady(list: ActionList, start: nat, q0: nat, e0: nat, args: seq<int>, l0: Links,
                                     l: Links, g: Progress)
    requires Along(list, start, q0, args, g) && Holding(l0, l, start, q0, e0, g)
    requires forall x :: q0 <= x < q0 + 1 + list.Slots(start) ==> x !in l0.cells
    ensures list.Formed(g.p) && list.Args(g.p) <= |g.rest| && l.Ok() && |l.lg| == |l0.lg| && g.q > 0
    ensures !list.Last(g.p) && list.Slotted(g.p) ==> g.q !in l.cells
  {
  }

  /** What one action does: with `st`, the state goes from `l` to `l'`. */
  ghost predicate Turned(list: ActionList, g: Progress, l: Links, l': Links, st: Status) {
    list.Formed(g.p) && list.Args(g.p) <= |g.rest| && !list.Last(g.p) &&
    var n := if list.Argued(g.p) then g.rest[0] else 0;
    if list.Slotted(g.p) then
      st == ActionStatus(list, g.p, n, l) &&
      (st == S_OK ==>
         l' == ActionLinks(list, g.p, g.q, g.e, n, l) &&
         Stepped(l, l', list.ItemAt(g.p, g.q), g.e, g.q, EventAt(list.words[g.p], g.q, n)))
    else st == S_OK && l' == l
  }

  lemma {:induction false} TurnDone(list: ActionList, start: nat, q0: nat, e0: nat, args: seq<int>, l0: Links,
                                    l: Links, l': Links, g: Progress, st: Status)
    requires Along(list, start, q0, args, g) && Holding(l0, l, start, q0, e0, g) && Turned(list, g, l, l', st)
    ensures var put := ListPut(list, g.p, g.q, g.e, g.rest, l);
      if st != S_OK then put.0 == st
      else
        var h := Advance(list, g);
        Along(list, start, q0, args, h) && Holding(l0, l', start, q0, e0, h) &&
        put == ListPut(list, h.p, h.q, h.e, h.rest, l') && list.Stop(h.p) == list.Stop(g.p) && h.p > g.p
  {
    hide Stepped, EventAt, Links.Ok, ActionStatus, ActionLinks, Events, Filled, Links.Extends;
    if st == S_OK {
      AlongNext(list, start, q0, args, g);
      HoldingNext(l0, l, l', list, start, q0, e0, g);
    }
    ListPutNext(list, g.p, g.q, g.e, g.rest, l, l', st);
  }

  lemma {:induction false} TurnsEnd(list: ActionList, start: nat, q0: nat, e0: nat, args: seq<int>, l0: Links, l: Links,
                                    g: Progress)
    requires Along(list, start, q0, args, g) && Holding(l0, l, start, q0, e0, g) && list.Last(g.p)
    ensures list.Stop(g.p) == g.p && ListPut(list, g.p, g.q, g.e, g.rest, l) == (S_OK, l)
  {
  }

  // ----- sections -----

  /** A section into which the lists from `ss` were put: its buffer, where that ends,
      and its estimated size. */
  ghost predicate SecOk(list: ActionList, s: nat, ss: seq<nat>, z: nat, e: nat, l: Links) {
    list.AllFormed(ss) && z == list.End(ss, SecPos(s)) && SecPos(s) <= z <= SecPos(s + 1) &&
    e == Estimate(list.Blocks(ss, SecPos(s))) && Stored(list, ss, SecPos(s), 0, l) &&
    forall q {:trigger q in l.cells} :: z <= q < SecPos(s + 1) ==> q !in l.cells
  }

  /** A section into which nothing was put in between. */
  lemma {:induction false} SecKept(list: ActionList, s: nat, ss: seq<nat>, z: nat, e: nat, l: Links, l': Links,
                                   s': nat, q0: nat, q: nat)
    requires SecOk(list, s, ss, z, e, l) && l.Extends(l') && s != s'
    requires SecPos(s') <= q0 <= q <= SecPos(s' + 1)
    requires forall x :: x in l'.cells ==> x in l.cells || q0 <= x < q
    ensures SecOk(list, s, ss, z, e, l')
  {
    StoredKept(list, ss, SecPos(s), 0, l, l');
    if s < s' { assert SecPos(s + 1) <= SecPos(s'); } else { assert SecPos(s' + 1) <= SecPos(s); }
  }

  /** At its end, all of the list has been put. */
  lemma {:induction false} ListDone(list: ActionList, start: nat, q0: nat, args: seq<int>, g: Progress)
    requires Along(list, start, q0, args, g) && list.Last(g.p)
    ensures g.done == list.Items(start, q0 + 1) && g.events == Events(list, start, q0 + 1, args)
    ensures g.q == q0 + 1 + list.Slots(start)
  {
    assert g.done + [] == g.done && g.events + [] == g.events;
  }

  lemma {:induction false} StoredGrown(list: ActionList, s: nat, ss: seq<nat>, z: nat, e: nat, l: Links, l': Links,
                                       start: nat, g: Progress)
    requires SecOk(list, s, ss, z, e, l) && list.Formed(start) && list.Patching(start, false)
    requires g.done == list.Items(start, z + 1) && Holding(l, l', start, z, e, g)
    ensures list.AllFormed(ss + [start]) && Stored(list, ss + [start], SecPos(s), 0, l')
  {
    StoredKept(list, ss, SecPos(s), 0, l, l');
    assert ListStored(list, start, z, e, l');
    hide Holding, ListStored, Filled, Links.Ok, Links.Extends;
    StoredSnoc(list, ss, start, SecPos(s), 0, l');
  }

  /** A section into which a list was put. */
  lemma {:induction false} SecGrown(list: ActionList, s: nat, ss: seq<nat>, z: nat, e: nat, l: Links, l': Links,
                                    start: nat, g: Progress)
    requires SecOk(list, s, ss, z, e, l) && list.Formed(start) && list.Patching(start, false)
    requires g.done == list.Items(start, z + 1) && g.q == z + 1 + list.Slots(start) <= SecPos(s + 1)
    requires Holding(l, l', start, z, e, g)
    ensures SecOk(list, s, ss + [start], g.q, g.e, l')
  {
    StoredGrown(list, s, ss, z, e, l, l', start, g);
    hide Stored, Filled, Estimate, ActionList.Items, ActionList.Blocks, ActionList.End;
    list.BlocksSnoc(ss, start, SecPos(s));
    EstimateAppend(list.Blocks(ss, SecPos(s)), g.done);
    forall q {:trigger q in l'.cells} | g.q <= q < SecPos(s + 1)
      ensures q !in l'.cells
    {
      assert q !in l.cells;
    }
  }

  ghost predicate SecsOk(list: ActionList, starts: seq<seq<nat>>, pos: seq<nat>, ofs: seq<nat>, l: Links) {
    |starts| == |pos| == |ofs| &&
    forall s {:trigger starts[s]} :: 0 <= s < |starts| ==> SecOk(list, s, starts[s], pos[s], ofs[s], l)
  }

  /** A section's buffer is unused from its end on. */
  lemma {:induction false} SecRoom(list: ActionList, starts: seq<seq<nat>>, pos: seq<nat>, ofs: seq<nat>, l: Links,
                                   sec: nat, n: nat)
    requires SecsOk(list, starts, pos, ofs, l) && sec < |starts|
    ensures |pos| == |ofs| == |starts|
    ensures pos[sec] + n <= SecPos(sec + 1) ==> forall x :: pos[sec] <= x < pos[sec] + n ==> x !in l.cells
  {
    assert SecOk(list, sec, starts[sec], pos[sec], ofs[sec], l);
  }

  lemma {:induction false} SecsGrown(list: ActionList, starts: seq<seq<nat>>, pos: seq<nat>, ofs: seq<nat>,
                                     l: Links, l': Links, sec: nat, start: nat, g: Progress)
    requires SecsOk(list, starts, pos, ofs, l) && sec < |starts|
    requires list.Formed(start) && list.Patching(start, false) && g.done == list.Items(start, pos[sec] + 1)
    requires g.q == pos[sec] + 1 + list.Slots(start) <= SecPos(sec + 1)
    requires Holding(l, l', start, pos[sec], ofs[sec], g)
    ensures SecsOk(list, starts[sec := starts[sec] + [start]], pos[sec := g.q], ofs[sec := g.e], l')
  {
    var starts' := starts[sec := starts[sec] + [start]];
    assert starts[sec] == starts[sec];
    forall s {:trigger starts'[s]} | 0 <= s < |starts|
      ensures SecOk(list, s, starts'[s], pos[sec := g.q][s], ofs[sec := g.e][s], l')
    {
      if s == sec {
        SecGrown(list, s, starts[s], pos[s], ofs[s], l, l', start, g);
      } else {
        SecKept(list, s, starts[s], pos[s], ofs[s], l, l', sec, pos[sec], g.q);
      }
    }
  }

  /** Every definition is a label item of some section. */
  ghost predicate DefsPlaced(list: ActionList, starts: seq<seq<nat>>, log: seq<Event>) {
    forall j: nat {:trigger log[j]} :: j < |log| && log[j].Def? ==> Placed(list, starts, log[j].pos)
  }

  ghost predicate Placed(list: ActionList, starts: seq<seq<nat>>, q: nat) {
    exists s {:trigger starts[s]} ::
      0 <= s < |starts| && list.AllFormed(starts[s]) && LabelIn(list.Blocks(starts[s], SecPos(s)), q)
  }

  lemma {:induction false} PlacedGrows(list: ActionList, starts: seq<seq<nat>>, s: nat, start: nat, q: nat)
    requires s < |starts| && list.AllFormed(starts[s]) && list.Formed(start) && list.Patching(start, false)
    requires var z := list.End(starts[s], SecPos(s));
      Placed(list, starts, q) || LabelIn(list.Items(start, z + 1), q)
    ensures Placed(list, starts[s := starts[s] + [start]], q)
  {
    var z, starts' := list.End(starts[s], SecPos(s)), starts[s := starts[s] + [start]];
    list.BlocksSnoc(starts[s], start, SecPos(s));
    if LabelIn(list.Items(start, z + 1), q) {
      LabelInAppend(list.Blocks(starts[s], SecPos(s)), list.Items(start, z + 1), q);
      assert starts'[s] == starts[s] + [start];
    } else {
      var k :| 0 <= k < |starts| && list.AllFormed(starts[k]) && LabelIn(list.Blocks(starts[k], SecPos(k)), q);
      if k == s { LabelInAppend(list.Blocks(starts[s], SecPos(s)), list.Items(start, z + 1), q); }
      assert starts'[k] == if k == s then starts[s] + [start] else starts[k];
    }
  }

  lemma {:induction false} DefsPlacedGrow(list: ActionList, starts: seq<seq<nat>>, s: nat, start: nat,
                                          args: seq<int>, log: seq<Event>)
    requires DefsPlaced(list, starts, log)
    requires s < |starts| && list.AllFormed(starts[s]) && list.Formed(start) && list.Patching(start, false)
    requires list.Args(start) <= |args|
    ensures DefsPlaced(list, starts[s := starts[s] + [start]],
                       log + Events(list, start, list.End(starts[s], SecPos(s)) + 1, args))
  {
    var z := list.End(starts[s], SecPos(s));
    var now := Events(list, start, z + 1, args);
    var log' := log + now;
    forall j: nat {:trigger log'[j]} | j < |log'| && log'[j].Def?
      ensures Placed(list, starts[s := starts[s] + [start]], log'[j].pos)
    {
      if j < |log| {
        assert log'[j] == log[j];
      } else {
        assert log'[j] == now[j - |log|];
        DefinedIn(list, start, z + 1, args, j - |log|);
      }
      PlacedGrows(list, starts, s, start, log'[j].pos);
    }
  }

  lemma {:induction false} PutDone(list: ActionList, starts: seq<seq<nat>>, pos: seq<nat>, ofs: seq<nat>,
                                   l: Links, l': Links, sec: nat, start: nat, args: seq<int>, g: Progress)
    requires SecsOk(list, starts, pos, ofs, l) && sec < |starts| && DefsPlaced(list, starts, l.log)
    requires list.Formed(start) && list.Patching(start, false) && list.Args(start) <= |args|
    requires pos[sec] + 1 + list.Slots(start) <= SecPos(sec + 1)
    requires Along(list, start, pos[sec], args, g) && list.Last(g.p) && Holding(l, l', start, pos[sec], ofs[sec], g)
    ensures var starts' := starts[sec := starts[sec] + [start]];
      SecsOk(list, starts', pos[sec := g.q], ofs[sec := g.e], l') && DefsPlaced(list, starts', l'.log)
    ensures l'.Ok() && l'.log == l.log + Events(list, start, pos[sec] + 1, args) &&
      g.q == pos[sec] + 1 + list.Slots(start)
    ensures |l'.lg| == |l.lg| && |l'.pc| == |l.pc| && pos[sec] in l'.cells && forall x :: x in l.cells ==> x in l'.cells
  {
    assert SecOk(list, sec, starts[sec], pos[sec], ofs[sec], l);
    ListDone(list, start, pos[sec], args, g);
    hide SecsOk, DefsPlaced, Along, Stored, Filled, Events;
    SecsGrown(list, starts, pos, ofs, l, l', sec, start, g);
    DefsPlacedGrow(list, starts, sec, start, args, l.log);
  }

  // ----- pass 2 -----

  predicate ListsFormed(list: ActionList, starts: seq<seq<nat>>) {
    forall k {:trigger starts[k]} :: 0 <= k < |starts| ==> list.AllFormed(starts[k])
  }

  /** The items of the sections from `s` on, in the order of the program. */
  function AllItems(list: ActionList, starts: seq<seq<nat>>, s: nat): seq<Item>
    requires ListsFormed(list, starts)
    decreases |starts| - s
  {
    if s >= |starts| then [] else list.Blocks(starts[s], SecPos(s)) + AllItems(list, starts, s + 1)
  }

  /** Every label of the items holds its true offset. */
  ghost predicate Told(items: seq<Item>, cells: map<nat, int>) {
    forall k {:trigger items[k]} :: 0 <= k < |items| && items[k].Label? ==>
      items[k].slot in cells && cells[items[k].slot] == Offset(items[..k], 0)
  }

  ghost predicate SlotsBelow(items: seq<Item>, q: nat) {
    forall k {:trigger items[k]} :: 0 <= k < |items| && !items[k].Code? ==> items[k].slot < q
  }

  /** Pass 2 has gone through the items `done`, up to position `q`; `l1` is the state
      before. Only labels changed. */
  ghost predicate Linking(l1: Links, l: Links, done: seq<Item>, q: nat) {
    l == l1.(cells := l.cells) && l.cells.Keys == l1.cells.Keys && SlotsBelow(done, q) && Told(done, l.cells) &&
    (forall k {:trigger done[k]} :: 0 <= k < |done| && done[k].Label? ==> IsDef(l1, done[k].slot)) &&
    forall x {:trigger x in l.cells} :: x in l1.cells && !LabelIn(done, x) ==> l.cells[x] == l1.cells[x]
  }

  lemma {:induction false} OffsetSnoc(done: seq<Item>, x: Item)
    ensures Offset(done + [x], 0) == After(x, Offset(done, 0))
  {
    OffsetAppend(done, [x], 0);
    assert [x][1..] == [];
  }

  lemma {:induction false} LinkingNothing(l: Links)
    ensures Linking(l, l, [], 0) && Offset([], 0) == 0
  {
  }

  /** The next item; a label's cell now holds its offset. */
  lemma {:induction false} LinkingNext(l1: Links, l: Links, l': Links, done: seq<Item>, q: nat, x: Item, q': nat)
    requires Linking(l1, l, done, q) && (x.Code? || x.slot == q) && q' == if x.Code? then q else q + 1
    requires (!x.Code? ==> q in l.cells) && (x.Label? ==> IsDef(l1, q))
    requires l' == if x.Label? then l.(cells := l.cells[q := Offset(done, 0)]) else l
    ensures Linking(l1, l', done + [x], q')
  {
    var done' := done + [x];
    forall k {:trigger done'[k]} | 0 <= k < |done'| && done'[k].Label?
      ensures done'[k].slot in l'.cells && l'.cells[done'[k].slot] == Offset(done'[..k], 0)
    {
      assert done'[..k] == if k < |done| then done[..k] else done;
      if k < |done| { assert done[k] == done'[k]; }
    }
    forall y {:trigger y in l'.cells} | y in l1.cells && !LabelIn(done', y)
      ensures l'.cells[y] == l1.cells[y]
    {
      assert done'[|done|] == x;
      if LabelIn(done, y) { LabelInAppend(done, [x], y); }
    }
    forall k {:trigger done'[k]} | 0 <= k < |done'| && !done'[k].Code?
      ensures done'[k].slot < q'
    {
      if k < |done| { assert done[k] == done'[k]; }
    }
  }

  /** The cell at the current position is as pass 1 left it. */
  lemma {:induction false} LinkingAt(l1: Links, l: Links, done: seq<Item>, q: nat)
    requires Linking(l1, l, done, q) && q in l1.cells
    ensures q in l.cells && l.cells[q] == l1.cells[q]
  {
    assert !LabelIn(done, q);
  }

  lemma {:induction false} LinkingLater(l1: Links, l: Links, done: seq<Item>, q: nat, q': nat)
    requires Linking(l1, l, done, q) && q <= q'
    ensures Linking(l1, l, done, q')
  {
  }

  lemma {:induction false} FilledFirst(list: ActionList, p: nat, q: nat, e: nat, l: Links)
    requires list.Formed(p) && !list.Last(p) && Filled(list.Items(p, q), e, l)
    ensures var x := list.ItemAt(p, q);
      FilledItem(x, e, l) && Filled(list.Items(list.Next(p), if list.Slotted(p) then q + 1 else q), e + MaxSize(x), l)
  {
    var items := list.Items(p, q);
    assert items[1..] == list.Items(list.Next(p), if list.Slotted(p) then q + 1 else q);
  }

  /** Pass 2 is at `p` in a list, of which the items up to `q` are done. */
  ghost predicate InList(list: ActionList, l1: Links, p: nat, q: nat, e: nat, adj: int, done: seq<Item>) {
    list.Formed(p) && Filled(list.Items(p, q), e, l1) && adj + e == Offset(done, 0)
  }

  lemma {:induction false} InListNext(list: ActionList, l1: Links, p: nat, q: nat, e: nat, adj: int, done: seq<Item>,
                                      adj': int)
    requires InList(list, l1, p, q, e, adj, done) && !list.Last(p)
    requires var x := list.ItemAt(p, q);
      adj' == if x.Align? then adj - (e + x.mask + adj) % (x.mask + 1) else adj
    ensures var x, q' := list.ItemAt(p, q), if list.Slotted(p) then q + 1 else q;
      FilledItem(x, e, l1) && InList(list, l1, list.Next(p), q', e + MaxSize(x), adj', done + [x])
  {
    var x := list.ItemAt(p, q);
    var items := list.Items(p, q);
    assert items[0] == x && items[1..] == list.Items(list.Next(p), if list.Slotted(p) then q + 1 else q);
    OffsetSnoc(done, x);
  }

  /** An item moves from what is left of a list to what is done. */
  lemma {:induction false} ItemMoves(list: ActionList, p: nat, q: nat, done: seq<Item>)
    requires list.Formed(p) && !list.Last(p)
    ensures var x, q' := list.ItemAt(p, q), if list.Slotted(p) then q + 1 else q;
      done + list.Items(p, q) == done + [x] + list.Items(list.Next(p), q') &&
      Estimate(list.Items(p, q)) == MaxSize(x) + Estimate(list.Items(list.Next(p), q')) &&
      (x.Code? <==> !list.Slotted(p)) && (!x.Code? ==> x.slot == q)
  {
    var items := list.Items(p, q);
    assert items[1..] == list.Items(list.Next(p), if list.Slotted(p) then q + 1 else q);
  }

  /** Where pass 2 is in a section: the lists that are left, the position, the estimated
      and the true offset, and the items that are done. */
  datatype Place = Place(ss: seq<nat>, q: nat, e: nat, adj: int, done: seq<Item>)

  ghost predicate InSection(list: ActionList, l1: Links, c: Place) {
    list.AllFormed(c.ss) && Stored(list, c.ss, c.q, c.e, l1) && c.adj + c.e == Offset(c.done, 0)
  }

  /** What is done and what is left are the items up to `all`, with the end and size of
      the section. */
  ghost predicate Covers(list: ActionList, c: Place, all: seq<Item>, end: nat, size: nat) {
    list.AllFormed(c.ss) && c.done + list.Blocks(c.ss, c.q) == all && list.End(c.ss, c.q) == end &&
    c.e + Estimate(list.Blocks(c.ss, c.q)) == size
  }

  lemma {:induction false} BlockStarts(list: ActionList, l1: Links, c: Place)
    requires InSection(list, l1, c) && c.ss != []
    ensures c.q in l1.cells && l1.cells[c.q] == c.ss[0] && InList(list, l1, c.ss[0], c.q + 1, c.e, c.adj, c.done)
  {
  }

  function NextPlace(list: ActionList, c: Place, adj: int): Place
    requires c.ss != [] && list.Formed(c.ss[0])
  {
    var items := list.Items(c.ss[0], c.q + 1);
    Place(c.ss[1..], c.q + 1 + list.Slots(c.ss[0]), c.e + Estimate(items), adj, c.done + items)
  }

  lemma {:induction false} BlockMoves(list: ActionList, l1: Links, c: Place, adj: int, all: seq<Item>, end: nat,
                                      size: nat)
    requires InSection(list, l1, c) && Covers(list, c, all, end, size) && c.ss != []
    requires var items := list.Items(c.ss[0], c.q + 1);
      adj + c.e + Estimate(items) == Offset(c.done + items, 0)
    ensures InSection(list, l1, NextPlace(list, c, adj)) && Covers(list, NextPlace(list, c, adj), all, end, size)
  {
    hide Filled, Offset, Estimate, ActionList.Items, ActionList.Slots, ActionList.Formed;
    EstimateAppend(list.Items(c.ss[0], c.q + 1), list.Blocks(c.ss[1..], c.q + 1 + list.Slots(c.ss[0])));
  }

  lemma {:induction false} SectionEnds(list: ActionList, c: Place, all: seq<Item>, end: nat, size: nat)
    requires Covers(list, c, all, end, size)
    ensures c.q == end <==> c.ss == []
    ensures c.q == end ==> c.done == all && c.e == size
  {
    list.EndAfter(c.ss, c.q);
    assert c.done + [] == c.done;
  }

  /** Marking the undefined globals keeps what pass 1 stored. */
  lemma {:induction false} SecsMarked(list: ActionList, starts: seq<seq<nat>>, pos: seq<nat>, ofs: seq<nat>,
                                      l: Links, l1: Links, from: nat, to: nat)
    requires SecsOk(list, starts, pos, ofs, l) && l.Marks(l1, from, to)
    ensures SecsOk(list, starts, pos, ofs, l1) && ListsFormed(list, starts)
  {
    forall s {:trigger starts[s]} | 0 <= s < |starts|
      ensures SecOk(list, s, starts[s], pos[s], ofs[s], l1) && list.AllFormed(starts[s])
    {
      StoredKept(list, starts[s], SecPos(s), 0, l, l1);
    }
  }

  lemma {:induction false} SecAt(list: ActionList, starts: seq<seq<nat>>, pos: seq<nat>, ofs: seq<nat>, l: Links,
                                 s: nat)
    requires SecsOk(list, starts, pos, ofs, l) && s < |starts|
    ensures SecOk(list, s, starts[s], pos[s], ofs[s], l) && pos[s] <= SecPos(s + 1)
  {
    assert starts[s] == starts[s];
  }

  lemma {:induction false} SectionMoves(list: ActionList, starts: seq<seq<nat>>, s: nat, done: seq<Item>,
                                        all: seq<Item>)
    requires ListsFormed(list, starts) && s < |starts| && done + AllItems(list, starts, s) == all
    ensures list.AllFormed(starts[s])
    ensures done + list.Blocks(starts[s], SecPos(s)) + AllItems(list, starts, s + 1) == all
  {
    assert starts[s] == starts[s];
  }

  // ----- pass 3 -----

  /** The cells that belong to no label are as they were before pass 2. */
  ghost predicate PlainSame(l1: Links, cells: map<nat, int>) {
    l1.cells.Keys == cells.Keys &&
    forall q {:trigger l1.Plain(q)} :: q in l1.cells && l1.Plain(q) ==> cells[q] == l1.cells[q]
  }

  lemma {:induction false} PlainKept(l1: Links, l: Links, all: seq<Item>, z: nat)
    requires Linking(l1, l, all, z)
    ensures PlainSame(l1, l.cells)
  {
    forall q {:trigger l1.Plain(q)} | q in l1.cells && l1.Plain(q)
      ensures l.cells[q] == l1.cells[q]
    {
      assert q in l.cells;
      assert !IsDef(l1, q);
      assert !LabelIn(all, q);
    }
  }

  /** Every reference holds the position of a cell, or a marker below zero. */
  ghost predicate Reachable(items: seq<Item>, cells: map<nat, int>) {
    forall k {:trigger items[k]} :: 0 <= k < |items| && items[k].Rel? ==> RefFound(items[k], cells)
  }

  predicate RefFound(i: Item, cells: map<nat, int>) {
    i.Rel? ==> i.slot in cells && (cells[i.slot] >= 0 ==> var d: nat := cells[i.slot]; d in cells)
  }

  /** The checks of dasm_encode on an item at offset `o`: a reference to a marked global
      or one that its operand has no room for is an error. */
  predicate Passes(i: Item, o: nat, cells: map<nat, int>) {
    i.Rel? ==>
      i.slot in cells && cells[i.slot] >= 0 &&
      var d: nat := cells[i.slot];
      d in cells && InRange(FormOf(i.ins), cells[d] - o - 4)
  }

  predicate AllPass(items: seq<Item>, o: nat, cells: map<nat, int>)
    decreases |items|
  {
    items == [] || (Passes(items[0], o, cells) && AllPass(items[1..], After(items[0], o), cells))
  }

  lemma {:induction false} AllPassAppend(a: seq<Item>, b: seq<Item>, o: nat, cells: map<nat, int>)
    ensures AllPass(a + b, o, cells) <==> AllPass(a, o, cells) && AllPass(b, Offset(a, o), cells)
    decreases |a|
  {
    if a == [] {
      assert a + b == b;
    } else {
      AllPassAppend(a[1..], b, After(a[0], o), cells);
      assert (a + b)[1..] == a[1..] + b;
    }
  }

  lemma {:induction false} EmitAppend(a: seq<Item>, b: seq<Item>, out: seq<nat>, cells: map<nat, int>)
    ensures EmitAll(a + b, out, cells) == EmitAll(b, EmitAll(a, out, cells), cells)
    decreases |a|
  {
    if a == [] {
      assert a + b == b;
    } else {
      EmitAppend(a[1..], b, Emit(a[0], out, cells), cells);
      assert (a + b)[1..] == a[1..] + b;
    }
  }

  predicate Masked(items: seq<Item>) {
    forall k {:trigger items[k]} :: 0 <= k < |items| && items[k].Align? ==> Mask(items[k].mask)
  }

  lemma {:induction false} NopsMany(k: nat)
    ensures |Nops(k)| == k && Nops(k + 1) == Nops(k) + [NOP]
  {
    if k > 0 { NopsMany(k - 1); }
  }

  /** The words that an item becomes take the bytes that pass 2 counted. */
  lemma {:induction false} EmitSize(i: Item, out: seq<nat>, cells: map<nat, int>)
    requires i.Align? ==> Mask(i.mask)
    ensures 4 * |Emit(i, out, cells)| == After(i, 4 * |out|)
  {
    if i.Align? {
      PaddingIs(|out|, i.mask);
      NopsMany(Padding(|out|, i.mask));
    }
  }

  lemma {:induction false} OffsetGrows(items: seq<Item>, o: nat)
    ensures Offset(items, o) >= o
    decreases |items|
  {
    if items != [] {
      if items[0].Align? { AlignUpIs(o, items[0].mask); }
      OffsetGrows(items[1..], After(items[0], o));
    }
  }

  /** The program has exactly the size that pass 2 computes. */
  lemma {:induction false} ProgramSize(items: seq<Item>, out: seq<nat>, cells: map<nat, int>)
    requires Masked(items)
    ensures 4 * |EmitAll(items, out, cells)| == Offset(items, 4 * |out|)
    decreases |items|
  {
    if items != [] {
      EmitSize(items[0], out, cells);
      ProgramSize(items[1..], Emit(items[0], out, cells), cells);
    }
  }

  /** Pass 3 has written the words `out` for the items `done`. */
  predicate Encoded(done: seq<Item>, out: seq<nat>, cells: map<nat, int>) {
    out == EmitAll(done, [], cells) && 4 * |out| == Offset(done, 0) && AllPass(done, 0, cells)
  }

  lemma {:induction false} EncodedNext(done: seq<Item>, out: seq<nat>, x: Item, cells: map<nat, int>)
    requires Encoded(done, out, cells) && (x.Align? ==> Mask(x.mask))
    ensures Passes(x, 4 * |out|, cells) ==> Encoded(done + [x], Emit(x, out, cells), cells)
  {
    EmitAppend(done, [x], [], cells);
    AllPassAppend(done, [x], 0, cells);
    OffsetAppend(done, [x], 0);
    EmitSize(x, out, cells);
    assert [x][1..] == [];
  }

  /** The next item of the program: it fits, and what it refers to can be read. */
  lemma {:induction false} ProgramAt(all: seq<Item>, done: seq<Item>, x: Item, rest: seq<Item>, cells: map<nat, int>)
    requires all == done + [x] + rest && Reachable(all, cells) && Masked(all)
    ensures After(x, Offset(done, 0)) <= Offset(all, 0) && RefFound(x, cells) && (x.Align? ==> Mask(x.mask))
    ensures AllPass(all, 0, cells) ==> Passes(x, Offset(done, 0), cells)
  {
    assert all == done + ([x] + rest) && ([x] + rest)[1..] == rest;
    assert all[|done|] == x;
    OffsetAppend(done, [x] + rest, 0);
    OffsetGrows(rest, After(x, Offset(done, 0)));
    AllPassAppend(done, [x] + rest, 0, cells);
  }

  lemma {:induction false} MaskedAppend(a: seq<Item>, b: seq<Item>)
    requires Masked(a) && Masked(b)
    ensures Masked(a + b)
  {
    var c := a + b;
    forall k {:trigger c[k]} | 0 <= k < |c| && c[k].Align?
      ensures Mask(c[k].mask)
    {
      if k < |a| { assert c[k] == a[k]; } else { assert c[k] == b[k - |a|]; }
    }
  }

  lemma {:induction false} ItemsMasked(list: ActionList, p: nat, q: nat)
    requires list.Formed(p)
    ensures Masked(list.Items(p, q))
    decreases |list.words| - p
  {
    if !list.Last(p) {
      var q' := if list.Slotted(p) then q + 1 else q;
      ItemsMasked(list, list.Next(p), q');
      MaskedAppend([list.ItemAt(p, q)], list.Items(list.Next(p), q'));
    }
  }

  lemma {:induction false} BlocksMasked(list: ActionList, ss: seq<nat>, q: nat)
    requires list.AllFormed(ss)
    ensures Masked(list.Blocks(ss, q))
    decreases |ss|
  {
    if ss != [] {
      ItemsMasked(list, ss[0], q + 1);
      BlocksMasked(list, ss[1..], q + 1 + list.Slots(ss[0]));
      MaskedAppend(list.Items(ss[0], q + 1), list.Blocks(ss[1..], q + 1 + list.Slots(ss[0])));
    }
  }

  lemma {:induction false} ProgramMasked(list: ActionList, starts: seq<seq<nat>>, s: nat)
    requires ListsFormed(list, starts)
    ensures Masked(AllItems(list, starts, s))
    decreases |starts| - s
  {
    if s < |starts| {
      assert starts[s] == starts[s];
      BlocksMasked(list, starts[s], SecPos(s));
      ProgramMasked(list, starts, s + 1);
      MaskedAppend(list.Blocks(starts[s], SecPos(s)), AllItems(list, starts, s + 1));
    }
  }

  /** Pass 3 is at `p` in a list that makes `block` of the program whole. */
  ghost predicate Midway(list: ActionList, all: seq<Item>, rest: seq<Item>, block: seq<Item>,
                         done: seq<Item>, p: nat, q: nat) {
    list.Formed(p) && done + list.Items(p, q) == block && all == block + rest
  }

  lemma {:induction false} BlockPlain(list: ActionList, l1: Links, c: Place, section: seq<Item>, end: nat, size: nat,
                                      rest: seq<Item>)
    requires InSection(list, l1, c) && Covers(list, c, section, end, size) && c.ss != []
    ensures c.q in l1.cells && l1.cells[c.q] == c.ss[0] && l1.Plain(c.q)
    ensures list.Patching(c.ss[0], false) && Filled(list.Items(c.ss[0], c.q + 1), c.e, l1)
    ensures Midway(list, section + rest, list.Blocks(c.ss[1..], c.q + 1 + list.Slots(c.ss[0])) + rest,
                   c.done + list.Items(c.ss[0], c.q + 1), c.done, c.ss[0], c.q + 1)
  {
  }

  lemma {:induction false} MidwayNext(list: ActionList, all: seq<Item>, rest: seq<Item>, block: seq<Item>,
                                      done: seq<Item>, p: nat, q: nat)
    requires Midway(list, all, rest, block, done, p, q) && !list.Last(p)
    ensures var x, q' := list.ItemAt(p, q), if list.Slotted(p) then q + 1 else q;
      Midway(list, all, rest, block, done + [x], list.Next(p), q') &&
      all == done + [x] + (list.Items(list.Next(p), q') + rest)
  {
    ItemMoves(list, p, q, done);
  }

  lemma {:induction false} MidwayEnds(list: ActionList, all: seq<Item>, rest: seq<Item>, block: seq<Item>,
                                      done: seq<Item>, p: nat, q: nat)
    requires Midway(list, all, rest, block, done, p, q) && list.Last(p)
    ensures done == block
  {
    assert done + [] == done;
  }

  /** The place after the next list of a section. */
  function AfterBlock(list: ActionList, c: Place): Place
    requires c.ss != [] && list.Formed(c.ss[0])
  {
    var items := list.Items(c.ss[0], c.q + 1);
    NextPlace(list, c, Offset(c.done + items, 0) - c.e - Estimate(items))
  }

  lemma {:induction false} AfterBlockIs(list: ActionList, l1: Links, c: Place, section: seq<Item>, end: nat, size: nat)
    requires InSection(list, l1, c) && Covers(list, c, section, end, size) && c.ss != []
    ensures var c' := AfterBlock(list, c);
      InSection(list, l1, c') && Covers(list, c', section, end, size) && |c'.ss| < |c.ss| &&
      c'.done == c.done + list.Items(c.ss[0], c.q + 1) && c'.q == c.q + 1 + list.Slots(c.ss[0])
  {
    var items := list.Items(c.ss[0], c.q + 1);
    BlockMoves(list, l1, c, Offset(c.done + items, 0) - c.e - Estimate(items), section, end, size);
  }

  /** All that pass 3 needs for the next list. */
  lemma {:induction false} BlockReady(list: ActionList, l1: Links, c: Place, section: seq<Item>, end: nat, size: nat,
                                      rest: seq<Item>, cells: map<nat, int>)
    requires InSection(list, l1, c) && Covers(list, c, section, end, size) && c.ss != [] && PlainSame(l1, cells)
    ensures l1.cells.Keys == cells.Keys && c.q in cells && cells[c.q] == c.ss[0]
    ensures list.Formed(c.ss[0]) && list.Patching(c.ss[0], false) && Filled(list.Items(c.ss[0], c.q + 1), c.e, l1)
    ensures var c' := AfterBlock(list, c);
      InSection(list, l1, c') && Covers(list, c', section, end, size) && |c'.ss| < |c.ss| &&
      c'.q == c.q + 1 + list.Slots(c.ss[0]) && list.AllFormed(c'.ss) &&
      Midway(list, section + rest, list.Blocks(c'.ss, c'.q) + rest, c'.done, c.done, c.ss[0], c.q + 1)
  {
    BlockPlain(list, l1, c, section, end, size, rest);
    AfterBlockIs(list, l1, c, section, end, size);
    hide Filled, Links.Plain, Stored, Covers;
  }

  lemma {:induction false} SectionStarts(list: ActionList, s: nat, ss: seq<nat>, z: nat, e: nat, l: Links,
                                         done: seq<Item>)
    requires SecOk(list, s, ss, z, e, l)
    ensures var c := Place(ss, SecPos(s), 0, Offset(done, 0), done);
      InSection(list, l, c) && Covers(list, c, done + list.Blocks(ss, SecPos(s)), z, e)
  {
  }

  // ----- what references hold in the end -----

  /** Every reference item is a reference that was put. */
  ghost predicate Founded(items: seq<Item>, l: Links) {
    forall k {:trigger items[k]} :: 0 <= k < |items| && items[k].Rel? ==>
      items[k].slot in l.cells && IsRef(l, items[k].slot)
  }

  lemma {:induction false} FoundedAppend(a: seq<Item>, b: seq<Item>, l: Links)
    requires Founded(a, l) && Founded(b, l)
    ensures Founded(a + b, l)
  {
    var c := a + b;
    forall k {:trigger c[k]} | 0 <= k < |c| && c[k].Rel?
      ensures c[k].slot in l.cells && IsRef(l, c[k].slot)
    {
      if k < |a| { assert c[k] == a[k]; } else { assert c[k] == b[k - |a|]; }
    }
  }

  lemma {:induction false} FilledFounded(items: seq<Item>, e: nat, l: Links)
    requires Filled(items, e, l)
    ensures Founded(items, l)
    decreases |items|
  {
    if items != [] {
      FilledFounded(items[1..], e + MaxSize(items[0]), l);
      FoundedAppend([items[0]], items[1..], l);
      assert [items[0]] + items[1..] == items;
    }
  }

  lemma {:induction false} StoredFounded(list: ActionList, ss: seq<nat>, q: nat, e: nat, l: Links)
    requires list.AllFormed(ss) && Stored(list, ss, q, e, l)
    ensures Founded(list.Blocks(ss, q), l)
    decreases |ss|
  {
    if ss != [] {
      var items, q' := list.Items(ss[0], q + 1), q + 1 + list.Slots(ss[0]);
      FilledFounded(items, e, l);
      StoredFounded(list, ss[1..], q', e + Estimate(items), l);
      FoundedAppend(items, list.Blocks(ss[1..], q'), l);
    }
  }

  lemma {:induction false} ProgramFounded(list: ActionList, starts: seq<seq<nat>>, pos: seq<nat>, ofs: seq<nat>,
                                          l: Links, s: nat)
    requires SecsOk(list, starts, pos, ofs, l) && ListsFormed(list, starts)
    ensures Founded(AllItems(list, starts, s), l)
    decreases |starts| - s
  {
    if s < |starts| {
      SecAt(list, starts, pos, ofs, l, s);
      StoredFounded(list, starts[s], SecPos(s), 0, l);
      ProgramFounded(list, starts, pos, ofs, l, s + 1);
      FoundedAppend(list.Blocks(starts[s], SecPos(s)), AllItems(list, starts, s + 1), l);
    }
  }

  /** After pass 2 a reference holds the position of the definition that it asks for; a
      pending one to a global from index `from` on is marked; no other is below zero. */
  lemma {:induction false} RefAfterLink(l0: Links, l1: Links, l: Links, from: nat, to: nat, all: seq<Item>, z: nat,
                                        i: nat)
    requires l0.Ok() && l0.Marks(l1, from, to) && Linking(l1, l, all, z) && i < |l0.log| && l0.log[i].Ref?
    ensures var q, tag := l0.log[i].pos, l0.log[i].tag;
      q in l.cells &&
      (forall j: nat {:trigger Binds(l0.log, i, j)} :: Binds(l0.log, i, j) ==> l.cells[q] == l0.log[j].pos) &&
      (Pending(l0.log, i) ==>
         (l.cells[q] < 0 <==> tag.Lg? && from <= tag.idx < to && tag.idx > 0) &&
         (l.cells[q] <= 0 || l.cells[q] in l.cells)) &&
      (l0.Settled(i) || Pending(l0.log, i))
  {
    var q, tag := l0.log[i].pos, l0.log[i].tag;
    assert l0.EventOk(i);
    assert !IsDef(l1, q);
    assert !LabelIn(all, q);
    assert q in l.cells && l.cells[q] == l1.cells[q];
    if Pending(l0.log, i) {
      assert l0.LabelOk(tag);
      l0.ChainCells(l0.Head(tag), l0.Chain(tag), i);
      forall j: nat {:trigger Binds(l0.log, i, j)} | true
        ensures !Binds(l0.log, i, j)
      {
        PendingUnbound(l0.log, i, j);
      }
    } else {
      assert l1.cells[q] == l0.cells[q];
      var j: nat :| Binds(l0.log, i, j) && l0.cells[q] == l0.log[j].pos;
      forall k: nat {:trigger Binds(l0.log, i, k)} | Binds(l0.log, i, k)
        ensures l.cells[q] == l0.log[k].pos
      {
        BindsOnce(l0.log, i, j, k);
      }
    }
  }

  /** Pass 3 can follow every reference that is not marked: to a definition, along the
      chain of a label that is not defined, or to position 0, where the first list is. */
  lemma {:induction false} AllReachable(l0: Links, l1: Links, l: Links, from: nat, all: seq<Item>, z: nat)
    requires l0.Ok() && l0.Marks(l1, from, if from < |l0.lg| then |l0.lg| else from) && Linking(l1, l, all, z)
    requires Founded(all, l1) && from > 0
    requires l0.log == [] || 0 in l0.cells
    ensures Reachable(all, l.cells)
  {
    forall k {:trigger all[k]} | 0 <= k < |all| && all[k].Rel?
      ensures RefFound(all[k], l.cells)
    {
      var q := all[k].slot;
      var i :| 0 <= i < |l1.log| && l1.log[i].Ref? && l1.log[i].pos == q;
      RefAfterLink(l0, l1, l, from, if from < |l0.lg| then |l0.lg| else from, all, z, i);
      if !Pending(l0.log, i) {
        var j: nat :| Binds(l0.log, i, j) && l0.cells[q] == l0.log[j].pos;
        assert l0.EventOk(j);
        assert l.cells[q] == l0.log[j].pos;
      }
    }
  }

  // ----- what the program does -----

  /** No reference or immediate comes before the next instruction. */
  predicate Untouched(items: seq<Item>)
    decreases |items|
  {
    items == [] ||
    match items[0]
    case Code(_) => true
    case Align(_, _) => Untouched(items[1..])
    case Label(_, _) => Untouched(items[1..])
    case _ => false
  }

  /** Later items leave a word alone, unless it is the last and they patch it. */
  lemma {:induction false} WordKept(items: seq<Item>, out: seq<nat>, cells: map<nat, int>, w: nat)
    requires w < |out| && (w < |out| - 1 || Untouched(items))
    ensures w < |EmitAll(items, out, cells)| && EmitAll(items, out, cells)[w] == out[w]
    decreases |items|
  {
    if items != [] { WordKept(items[1..], Emit(items[0], out, cells), cells, w); }
  }

  lemma {:induction false} LabelInBlocks(list: ActionList, starts: seq<seq<nat>>, s: nat, k: nat, q: nat)
    requires ListsFormed(list, starts) && s <= k < |starts|
    requires list.AllFormed(starts[k]) && LabelIn(list.Blocks(starts[k], SecPos(k)), q)
    ensures LabelIn(AllItems(list, starts, s), q)
    decreases k - s
  {
    if s < k { LabelInBlocks(list, starts, s + 1, k, q); }
    LabelInAppend(list.Blocks(starts[s], SecPos(s)), AllItems(list, starts, s + 1), q);
  }

  /** Item `m` is a label at position `p`, and holds its true offset. */
  ghost predicate ToldAt(all: seq<Item>, cells: map<nat, int>, m: nat, p: nat) {
    m < |all| && all[m].Label? && all[m].slot == p && p in cells && cells[p] == Offset(all[..m], 0)
  }

  /** Pass 2 has put the true offset of every definition at its position. */
  lemma {:induction false} DefinitionTold(list: ActionList, starts: seq<seq<nat>>, log: seq<Event>, j: nat,
                                          l1: Links, l: Links, z: nat) returns (m: nat)
    requires ListsFormed(list, starts) && DefsPlaced(list, starts, log) && j < |log| && log[j].Def?
    requires Linking(l1, l, AllItems(list, starts, 0), z)
    ensures ToldAt(AllItems(list, starts, 0), l.cells, m, log[j].pos)
  {
    var k :| 0 <= k < |starts| && list.AllFormed(starts[k]) && LabelIn(list.Blocks(starts[k], SecPos(k)), log[j].pos);
    LabelInBlocks(list, starts, 0, k, log[j].pos);
    var all := AllItems(list, starts, 0);
    m :| 0 <= m < |all| && all[m].Label? && all[m].slot == log[j].pos;
  }

  /** The instruction of item `k`, with the reference after it, in the finished program
      points to `target`, unless the range check let too much pass. The processor is two
      instructions ahead when it adds the displacement. */
  ghost predicate Points(all: seq<Item>, cells: map<nat, int>, k: nat, target: int) {
    k + 1 < |all| && all[k + 1].Rel? &&
    var here, f, out, w := Offset(all[..k], 0), FormOf(all[k + 1].ins), EmitAll(all, [], cells),
      |EmitAll(all[..k], [], cells)|;
    4 * w == here && w < |out| && (here + 8 + Displacement(f, out[w]) == target <==> Fits(f, target - here - 8))
  }

  lemma {:induction false} PatchedWord(x: Item, y: Item, out: seq<nat>, cells: map<nat, int>, d: nat, rest: seq<Item>)
    requires x.Code? && y.Rel? && Untouched(rest) && d in cells && y.slot in cells && cells[y.slot] == d
    ensures var all := EmitAll([x, y] + rest, out, cells);
      |out| < |all| && all[|out|] == BitOr(x.word, Field(FormOf(y.ins), cells[d] - 4 * |out| - 8))
  {
    var out1 := Emit(x, out, cells);
    var out2 := Emit(y, out1, cells);
    assert ([x, y] + rest)[1..] == [y] + rest && ([y] + rest)[1..] == rest;
    assert EmitAll([x, y] + rest, out, cells) == EmitAll([y] + rest, out1, cells) == EmitAll(rest, out2, cells);
    WordKept(rest, out2, cells, |out|);
  }

  lemma {:induction false} PassedRange(before: seq<Item>, x: Item, y: Item, rest: seq<Item>, cells: map<nat, int>,
                                       d: nat)
    requires AllPass(before + ([x, y] + rest), 0, cells) && x.Code? && y.Rel?
    requires y.slot in cells && cells[y.slot] == d && d in cells
    ensures InRange(FormOf(y.ins), cells[d] - Offset(before, 0) - 8)
  {
    AllPassAppend(before, [x, y] + rest, 0, cells);
    assert ([x, y] + rest)[1..] == [y] + rest;
  }

  lemma {:induction false} WordWritten(all: seq<Item>, k: nat, cells: map<nat, int>, d: nat)
    requires k + 1 < |all| && AllPass(all, 0, cells) && Masked(all[..k])
    requires all[k].Code? && all[k + 1].Rel? && Untouched(all[k + 2..])
    requires all[k + 1].slot in cells && cells[all[k + 1].slot] == d && d in cells
    ensures var w, f, n := |EmitAll(all[..k], [], cells)|, FormOf(all[k + 1].ins), cells[d] - Offset(all[..k], 0) - 8;
      4 * w == Offset(all[..k], 0) && InRange(f, n) && w < |EmitAll(all, [], cells)| &&
      EmitAll(all, [], cells)[w] == BitOr(all[k].word, Field(f, n))
  {
    hide EmitAll, Emit, AllPass, Field, InRange, Offset, Masked, Untouched, BitOr;
    var before, x, y, rest := all[..k], all[k], all[k + 1], all[k + 2..];
    assert all == before + ([x, y] + rest);
    var out := EmitAll(before, [], cells);
    ProgramSize(before, [], cells);
    EmitAppend(before, [x, y] + rest, [], cells);
    PatchedWord(x, y, out, cells, d, rest);
    PassedRange(before, x, y, rest, cells, d);
  }

  lemma {:induction false} WordPoints(all: seq<Item>, k: nat, cells: map<nat, int>, d: nat)
    requires AllPass(all, 0, cells) && Masked(all)
    requires k + 1 < |all| && all[k].Code? && all[k + 1].Rel? && Untouched(all[k + 2..])
    requires all[k + 1].slot in cells && cells[all[k + 1].slot] == d && d in cells
    requires Clear(FormOf(all[k + 1].ins), all[k].word)
    ensures Points(all, cells, k, cells[d])
  {
    MaskedPrefix(all, k);
    WordWritten(all, k, cells, d);
    PatchedReads(FormOf(all[k + 1].ins), all[k].word, cells[d] - Offset(all[..k], 0) - 8);
  }

  lemma {:induction false} MaskedPrefix(all: seq<Item>, k: nat)
    requires Masked(all) && k <= |all|
    ensures Masked(all[..k])
  {
    forall i {:trigger all[..k][i]} | 0 <= i < k && all[..k][i].Align?
      ensures Mask(all[..k][i].mask)
    {
      assert all[..k][i] == all[i];
    }
  }

  lemma {:induction false} PatchedReads(f: Form, w: nat, n: int)
    requires InRange(f, n) && Clear(f, w)
    ensures Displacement(f, BitOr(w, Field(f, n))) == n <==> Fits(f, n)
  {
    FieldReads(f, n);
    ClearPatched(f, w, Field(f, n));
  }

  /** A PC label that is defined at position `p`: its latest definition, and the item
      of that. */
  lemma {:induction false} PcLabelTold(list: ActionList, starts: seq<seq<nat>>, l0: Links, l1: Links, l: Links,
                                       z: nat, pc: nat, p: nat) returns (j: nat, m: nat)
    requires l0.Ok() && l.log == l0.log && ListsFormed(list, starts) && DefsPlaced(list, starts, l.log)
    requires Linking(l1, l, AllItems(list, starts, 0), z) && pc < |l0.pc| && l0.pc[pc] == Neg(p) && p > 0
    ensures j < |l.log| && l.log[j] == Def(p, Pc(pc)) && NoDef(l.log, Pc(pc), j + 1, |l.log|)
    ensures ToldAt(AllItems(list, starts, 0), l.cells, m, p)
  {
    j := LatestDef(l0, pc, p);
    m := DefinitionTold(list, starts, l.log, j, l1, l, z);
  }

  lemma {:induction false} LatestDef(l0: Links, pc: nat, p: nat) returns (j: nat)
    requires l0.Ok() && pc < |l0.pc| && l0.pc[pc] == Neg(p) && p > 0
    ensures j < |l0.log| && l0.log[j] == Def(p, Pc(pc)) && NoDef(l0.log, Pc(pc), j + 1, |l0.log|)
  {
    assert l0.LabelOk(Pc(pc));
    j :| j < |l0.log| && l0.log[j] == Def(p, Pc(pc)) && NoDef(l0.log, Pc(pc), j + 1, |l0.log|);
  }
}
