/** The encoding state of dasm_x86.h and its three passes. Actions are given with their
    arguments; what is stored is the start of their list, and what later passes change. */
module DynasmX86State {
  import opened DynasmLabels
  import opened DynasmX86
  import opened DynasmX86Passes
  import opened DynasmX86Encode

  /** The first label index that is not local. */
  const FIRST_GLOBAL: nat := 10

  datatype Status = S_OK | S_PHASE | S_RANGE_I | S_RANGE_SEC | S_RANGE_LG | S_RANGE_PC | S_UNDEF_PC(pc: nat)

  /** An action with its arguments; label numbers are those of the action list. */
  datatype Action =
    | Code(b: nat)
    | ImmS(n: int) | ImmB(n: int) | ImmW(n: int) | ImmD(n: int)
    | RelA(address: int)
    | Fill(b: nat, count: nat)
    | RelLg(op: nat, lg: nat) | RelPc(op: nat, pc: int)
    | ImmLg(lg: nat) | ImmPc(pc: int)
    | LabelLg(lg: nat) | LabelPc(pc: int)
    | AlignTo(mask: nat)

  /** How an action list ends. */
  datatype End = Stop | Section(n: nat)

  /** What dynasm.lua emits: bytes, masks, label numbers below 256, and a branch right behind
      its opcode. */
  predicate Formed(actions: seq<Action>) {
    forall k {:trigger actions[k]} :: 0 <= k < |actions| ==> FormedAt(actions, k)
  }

  predicate FormedAt(actions: seq<Action>, k: nat)
    requires k < |actions|
  {
    match actions[k]
    case Code(b) => b < 256
    case Fill(b, _) => b < 256
    case RelLg(op, n) => n < 256 && Opcode(actions, k, op)
    case RelPc(op, _) => Opcode(actions, k, op)
    case ImmLg(n) => n < 256
    case LabelLg(n) => n < 256
    case AlignTo(m) => Mask(m)
    case _ => true
  }

  predicate Opcode(actions: seq<Action>, k: nat, op: nat)
    requires k < |actions|
  {
    k > 0 && actions[k - 1] == Code(op) && (Shrink(op) == 4 ==> k > 1 && actions[k - 2] == Code(0x0f))
  }

  predicate IsReference(a: Action) { a.RelLg? || a.RelPc? || a.ImmLg? || a.ImmPc? }

  predicate IsLabel(a: Action) { a.LabelLg? || a.LabelPc? }

  /** The positions that an action uses; one for each argument, and for estimates. */
  function Positions(a: Action): nat {
    match a
    case Code(_) => 0
    case RelLg(_, _) => 2
    case RelPc(_, _) => 2
    case _ => 1
  }

  /** The label that an action names; local labels from 247 on are forward references. */
  function Tag(a: Action): Label
    requires IsReference(a) || IsLabel(a)
  {
    match a
    case RelLg(_, n) => if n > 246 then Lg(n - 246) else Lg(n)
    case ImmLg(n) => if n > 246 then Lg(n - 246) else Lg(n)
    case LabelLg(n) => Lg(n)
    case RelPc(_, pc) => Pc(if pc < 0 then 0 else pc)
    case ImmPc(pc) => Pc(if pc < 0 then 0 else pc)
    case LabelPc(pc) => Pc(if pc < 0 then 0 else pc)
    case _ => Pc(0)
  }

  predicate Forward(a: Action) { (a.RelLg? || a.ImmLg?) && a.lg > 246 }

  /** The item that an action becomes, at position `q`. */
  function ItemOf(a: Action, q: nat): Item {
    match a
    case Code(b) => Byte(b)
    case ImmS(n) => Value(1, n)
    case ImmB(n) => Value(1, n)
    case ImmW(n) => Value(2, n)
    case ImmD(n) => Value(4, n)
    case RelA(n) => Absolute(n)
    case Fill(b, n) => Space(b, n)
    case RelLg(op, _) => Rel(op, q)
    case RelPc(op, _) => Rel(op, q)
    case ImmLg(_) => Addr(q)
    case ImmPc(_) => Addr(q)
    case LabelLg(_) => Here(Tag(a), q)
    case LabelPc(_) => Here(Tag(a), q)
    case AlignTo(m) => Align(m, q)
  }

  function EventsOf(a: Action, q: nat): seq<Event> {
    if IsReference(a) then [Ref(q, Tag(a), Forward(a))] else if IsLabel(a) then [Def(q, Tag(a))] else []
  }

  // ----- one step of pass 1 -----

  /** The reference itself, before the estimate behind a branch is stored. */
  function RefPut(l0: Links, a: Action, q: nat): Links
    requires IsReference(a) && l0.InRange(Tag(a))
  {
    if !Forward(a) && l0.Head(Tag(a)) < 0 then l0.Bound(q, Tag(a)) else l0.Chained(q, Tag(a), Forward(a))
  }

  lemma {:induction false} RefPutIs(l0: Links, a: Action, q: nat)
    requires l0.Ok() && q > 0 && q !in l0.cells && IsReference(a) && l0.InRange(Tag(a))
    requires if Forward(a) then Local(Tag(a)) else Local(Tag(a)) ==> l0.Head(Tag(a)) < 0
    ensures var m := RefPut(l0, a, q);
      m.Ok() && l0.Extends(m) && m.cells.Keys == l0.cells.Keys + {q} && m.log == l0.log + EventsOf(a, q) && IsRef(m, q)
  {
    if !Forward(a) && l0.Head(Tag(a)) < 0 {
      l0.BoundOk(q, Tag(a));
      l0.BoundExtends(q, Tag(a));
    } else {
      l0.ChainedOk(q, Tag(a), Forward(a));
      l0.ChainedExtends(q, Tag(a), Forward(a));
    }
    var m := RefPut(l0, a, q);
    assert m.log[|l0.log|] == Ref(q, Tag(a), Forward(a));
  }

  lemma {:induction false} RefStepped(l0: Links, l: Links, a: Action, e: nat, q: nat)
    requires l0.Ok() && q > 0 && q !in l0.cells && q + 1 !in l0.cells && IsReference(a) && l0.InRange(Tag(a))
    requires if Forward(a) then Local(Tag(a)) else Local(Tag(a)) ==> l0.Head(Tag(a)) < 0
    requires var m := RefPut(l0, a, q);
      l == if a.RelLg? || a.RelPc? then m.(cells := m.cells[q + 1 := e + 4]) else m
    ensures Stepped(l0, l, ItemOf(a, q), e, q, q + Positions(a), EventsOf(a, q))
  {
    RefPutIs(l0, a, q);
    var m := RefPut(l0, a, q);
    hide RefPut;
    assert q + 1 !in m.cells;
    m.StoredExtends(q + 1, e + 4);
    m.PlainStored(q + 1, e + 4);
    hide Links.Ok;
    if a.RelLg? || a.RelPc? {
      l0.ExtendsFurther(m, l);
      SameRefs(m, l, q);
    }
  }

  lemma {:induction false} SameRefs(l: Links, m: Links, q: nat)
    requires IsRef(l, q) && m.log == l.log
    ensures IsRef(m, q)
  {
  }

  lemma {:induction false} LabelStepped(l0: Links, a: Action, e: nat, q: nat)
    requires l0.Ok() && q > 0 && q !in l0.cells && IsLabel(a) && l0.InRange(Tag(a))
    ensures forall k {:trigger l0.Chain(Tag(a))[k]} :: 0 <= k < |l0.Chain(Tag(a))| ==> l0.Chain(Tag(a))[k] < |l0.log|
    ensures Stepped(l0, l0.Defined(q, Tag(a), e), ItemOf(a, q), e, q, q + 1, EventsOf(a, q))
  {
    l0.DefinedOk(q, Tag(a), e);
    l0.DefinedExtends(q, Tag(a), e);
    l0.DefinedCells(q, Tag(a), e);
    assert l0.Defined(q, Tag(a), e).log[|l0.log|] == Def(q, Tag(a));
  }

  lemma {:induction false} OtherStepped(l0: Links, l: Links, a: Action, e: nat, q: nat)
    requires l0.Ok() && q !in l0.cells && !IsReference(a) && !IsLabel(a)
    requires l == if a.AlignTo? then l0.(cells := l0.cells[q := e + a.mask]) else l0
    ensures Stepped(l0, l, ItemOf(a, q), e, q, q + Positions(a), EventsOf(a, q))
  {
    l0.StoredExtends(q, e);
    if a.AlignTo? {
      l0.StoredExtends(q, e + a.mask);
      l0.PlainStored(q, e + a.mask);
    }
    assert l.log == l0.log + [];
  }

  // ----- what dasm_put does -----

  /** The range checks of immediates. */
  predicate Accepts(a: Action) {
    match a
    case ImmS(n) => -128 <= n <= 127
    case ImmB(n) => 0 <= n <= 255
    case ImmW(n) => 0 <= n <= 65535
    case _ => true
  }

  /** What dasm_put checks of an action. */
  function ActionStatus(a: Action, l: Links): Status {
    if !Accepts(a) then S_RANGE_I
    else if a.RelLg? || a.ImmLg? then
      if a.lg <= 246 && (a.lg >= |l.lg| || (a.lg < 10 && l.lg[a.lg] >= 0)) then S_RANGE_LG else S_OK
    else if a.LabelLg? then if a.lg < |l.lg| then S_OK else S_RANGE_LG
    else if a.RelPc? || a.ImmPc? || a.LabelPc? then if 0 <= a.pc < |l.pc| then S_OK else S_RANGE_PC
    else S_OK
  }

  /** What it stores for an action, at position `q` and the estimated offset `e`. */
  ghost function ActionLinks(a: Action, q: nat, e: nat, l: Links): Links {
    if a.AlignTo? then l.(cells := l.cells[q := e + a.mask])
    else if !IsReference(a) && !IsLabel(a) then l
    else if !l.InRange(Tag(a)) then l
    else if IsReference(a) then
      var m := RefPut(l, a, q);
      if a.RelLg? || a.RelPc? then m.(cells := m.cells[q + 1 := e + 4]) else m
    else if forall k {:trigger l.Chain(Tag(a))[k]} :: 0 <= k < |l.Chain(Tag(a))| ==> l.Chain(Tag(a))[k] < |l.log|
    then l.Defined(q, Tag(a), e)
    else l
  }

  /** The actions from number `i` on: the first error, or the state behind them. */
  ghost function ListPut(actions: seq<Action>, i: nat, q: nat, e: nat, l: Links): (r: (Status, Links))
    ensures !r.0.S_PHASE? && !r.0.S_RANGE_SEC?
    decreases |actions| - i
  {
    if i >= |actions| then (S_OK, l)
    else if ActionStatus(actions[i], l) != S_OK then (ActionStatus(actions[i], l), l)
    else
      ListPut(actions, i + 1, q + Positions(actions[i]), e + MaxSize(ItemOf(actions[i], q)),
              ActionLinks(actions[i], q, e, l))
  }

  lemma {:induction false} ListPutNext(actions: seq<Action>, i: nat, q: nat, e: nat, l: Links, l': Links, st: Status)
    requires i < |actions| && st == ActionStatus(actions[i], l)
    requires st == S_OK ==> l' == ActionLinks(actions[i], q, e, l)
    ensures var put := ListPut(actions, i, q, e, l);
      if st != S_OK then put.0 == st
      else put == ListPut(actions, i + 1, q + Positions(actions[i]), e + MaxSize(ItemOf(actions[i], q)), l')
  {
  }

  lemma {:induction false} ListPutEnds(actions: seq<Action>, q: nat, e: nat, l: Links)
    ensures ListPut(actions, |actions|, q, e, l) == (S_OK, l)
  {
  }

  /** A whole call, with the end of the active section at position `q` and offset `e`. */
  ghost function ListPutAt(start: nat, actions: seq<Action>, q: nat, e: nat, l: Links): (r: (Status, Links))
    ensures !r.0.S_PHASE?
  {
    ListPut(actions, 0, q + 1, e, l.(cells := l.cells[q := start]))
  }

  /** The outcome: the first action that fails, or a section that does not exist. */
  ghost function PutStatus(start: nat, actions: seq<Action>, end: End, q: nat, e: nat, l: Links, sections: nat)
    : (st: Status)
    ensures !st.S_PHASE?
  {
    var st := ListPutAt(start, actions, q, e, l).0;
    if st == S_OK && end.Section? && end.n >= sections then S_RANGE_SEC else st
  }

  // ----- the opcode in front of a branch -----

  /** The items end with those of the actions up to `i`, as far as these are bytes. */
  predicate Trails(items: seq<Item>, actions: seq<Action>, i: nat)
    requires i <= |actions|
  {
    (i > 0 && actions[i - 1].Code? ==> |items| > 0 && items[|items| - 1] == Byte(actions[i - 1].b)) &&
    (i > 1 && actions[i - 1].Code? && actions[i - 2].Code? ==>
      |items| > 1 && items[|items| - 2] == Byte(actions[i - 2].b))
  }

  lemma {:induction false} LedNext(items: seq<Item>, actions: seq<Action>, i: nat, q: nat)
    requires i < |actions| && Led(items) && Trails(items, actions, i) && Formed(actions)
    ensures Led(items + [ItemOf(actions[i], q)]) && Trails(items + [ItemOf(actions[i], q)], actions, i + 1)
  {
    assert FormedAt(actions, i);
    var more := items + [ItemOf(actions[i], q)];
    forall k {:trigger more[k]} | 0 <= k < |more| && more[k].Rel?
      ensures k > 0 && more[k - 1] == Byte(more[k].op) &&
        (Shrink(more[k].op) == 4 ==> k > 1 && more[k - 2] == Byte(0x0f))
    {
      if k < |items| { assert more[k] == items[k]; }
    }
  }

  predicate Masked(items: seq<Item>) {
    forall k {:trigger items[k]} :: 0 <= k < |items| && items[k].Align? ==> Mask(items[k].mask)
  }

  lemma {:induction false} MaskedNext(items: seq<Item>, actions: seq<Action>, i: nat, q: nat)
    requires i < |actions| && Masked(items) && Formed(actions)
    ensures Masked(items + [ItemOf(actions[i], q)])
  {
    assert FormedAt(actions, i);
    var more := items + [ItemOf(actions[i], q)];
    forall k {:trigger more[k]} | 0 <= k < |more| && more[k].Align? ensures Mask(more[k].mask) {
      if k < |items| { assert more[k] == items[k]; }
    }
  }

  function AllPositions(actions: seq<Action>, i: nat): nat
    requires i <= |actions|
  {
    if i == 0 then 0 else AllPositions(actions, i - 1) + Positions(actions[i - 1])
  }

  lemma {:induction false} PositionsLeft(actions: seq<Action>, i: nat)
    requires i <= |actions|
    ensures AllPositions(actions, i) <= AllPositions(actions, |actions|)
    decreases |actions| - i
  {
    if i < |actions| { PositionsLeft(actions, i + 1); }
  }

  ghost predicate Trimmed(code: seq<seq<Item>>) {
    forall s {:trigger code[s]} :: 0 <= s < |code| ==> Led(code[s]) && Masked(code[s])
  }

  // ----- the state -----

  /** The items and events of the first `i` actions, with positions from `q` on. */
  function ItemsOf(actions: seq<Action>, q: nat, i: nat): seq<Item>
    requires i <= |actions|
  {
    if i == 0 then [] else ItemsOf(actions, q, i - 1) + [ItemOf(actions[i - 1], q + AllPositions(actions, i - 1))]
  }

  function AllEvents(actions: seq<Action>, q: nat, i: nat): seq<Event>
    requires i <= |actions|
  {
    if i == 0 then [] else AllEvents(actions, q, i - 1) + EventsOf(actions[i - 1], q + AllPositions(actions, i - 1))
  }

  /** Pass 1 has put the first `i` actions into section `sec`, from position `q0` on. */
  ghost predicate Putting(code: seq<seq<Item>>, pos: seq<nat>, ofs: seq<nat>, log0: seq<Event>, actions: seq<Action>,
                          sec: nat, q0: nat, i: nat, items: seq<Item>, q: nat, e: nat, l: Links) {
    sec < |code| == |pos| == |ofs| && i <= |actions| && l.Ok() && items == code[sec] + ItemsOf(actions, q0, i) &&
    q == q0 + AllPositions(actions, i) && l.log == log0 + AllEvents(actions, q0, i) && q > 0 &&
    SecsOk(code[sec := items], pos[sec := q], ofs[sec := e], l) && DefsPlaced(code[sec := items], l.log) &&
    Led(items) && Masked(items) && Trails(items, actions, i)
  }

  lemma {:induction false} PuttingStarts(code: seq<seq<Item>>, pos: seq<nat>, ofs: seq<nat>, actions: seq<Action>,
                                         sec: nat, l: Links, start: nat)
    requires SecsOk(code, pos, ofs, l) && DefsPlaced(code, l.log) && Trimmed(code) && sec < |code| && l.Ok()
    requires pos[sec] + 1 <= SecPos(sec + 1)
    ensures l.NotRef(pos[sec])
    ensures Putting(code, pos, ofs, l.log, actions, sec, pos[sec] + 1, 0, code[sec], pos[sec] + 1, ofs[sec],
                    l.(cells := l.cells[pos[sec] := start]))
  {
    SecsStored(code, pos, ofs, l, sec, start);
    assert code[sec] == code[sec] && code[sec := code[sec]] == code && ofs[sec := ofs[sec]] == ofs;
    assert code[sec] + [] == code[sec] && l.log + [] == l.log;
    hide SecsOk, Links.Ok, Links.Extends, DefsPlaced;
  }

  lemma {:induction false} PuttingNext(code: seq<seq<Item>>, pos: seq<nat>, ofs: seq<nat>, log0: seq<Event>,
                                       actions: seq<Action>,
                                       sec: nat, q0: nat, i: nat, items: seq<Item>, q: nat, e: nat, l: Links, l': Links)
    requires Putting(code, pos, ofs, log0, actions, sec, q0, i, items, q, e, l) && i < |actions| && Formed(actions)
    requires q + Positions(actions[i]) <= SecPos(sec + 1)
    requires Stepped(l, l', ItemOf(actions[i], q), e, q, q + Positions(actions[i]), EventsOf(actions[i], q))
    ensures Putting(code, pos, ofs, log0, actions, sec, q0, i + 1, items + [ItemOf(actions[i], q)],
                    q + Positions(actions[i]), e + MaxSize(ItemOf(actions[i], q)), l')
  {
    hide Led, Masked, Trails, Stepped, SecsOk, DefsPlaced, Formed;
    var x, q', ev := ItemOf(actions[i], q), q + Positions(actions[i]), EventsOf(actions[i], q);
    SecsNext(code[sec := items], pos[sec := q], ofs[sec := e], l, l', sec, x, q', ev);
    DefsNext(code[sec := items], sec, l, l', x, e, q, q', ev);
    LedNext(items, actions, i, q);
    MaskedNext(items, actions, i, q);
    assert code[sec := items][sec := items + [x]] == code[sec := items + [x]];
    assert pos[sec := q][sec := q'] == pos[sec := q'] &&
      ofs[sec := e][sec := e + MaxSize(x)] == ofs[sec := e + MaxSize(x)];
    SteppedLog(l, l', x, e, q, q', ev);
    assert log0 + AllEvents(actions, q0, i) + ev == log0 + (AllEvents(actions, q0, i) + ev);
  }

  lemma {:induction false} SteppedLog(l0: Links, l: Links, x: Item, e: nat, q: nat, q': nat, events: seq<Event>)
    requires Stepped(l0, l, x, e, q, q', events)
    ensures l.Ok() && l.log == l0.log + events
  {
  }

  /** Where the next action goes is free. */
  lemma {:induction false} PuttingFree(code: seq<seq<Item>>, pos: seq<nat>, ofs: seq<nat>, log0: seq<Event>,
                                       actions: seq<Action>,
                                       sec: nat, q0: nat, i: nat, items: seq<Item>, q: nat, e: nat, l: Links, y: nat)
    requires Putting(code, pos, ofs, log0, actions, sec, q0, i, items, q, e, l) && q <= y < SecPos(sec + 1)
    ensures y !in l.cells && l.Ok() && q > 0
  {
    SecAt(code[sec := items], pos[sec := q], ofs[sec := e], l, sec);
  }

  lemma {:induction false} LabelNumber(actions: seq<Action>, i: nat)
    requires Formed(actions) && i < |actions|
    ensures actions[i].RelLg? || actions[i].ImmLg? ==> actions[i].lg < 256
  {
    assert FormedAt(actions, i);
  }

  lemma {:induction false} PositionsHere(code: seq<seq<Item>>, pos: seq<nat>, ofs: seq<nat>, log0: seq<Event>,
                                         actions: seq<Action>,
                                         sec: nat, q0: nat, i: nat, items: seq<Item>, q: nat, e: nat, l: Links)
    requires Putting(code, pos, ofs, log0, actions, sec, q0, i, items, q, e, l) && i < |actions|
    ensures q + Positions(actions[i]) <= q0 + AllPositions(actions, |actions|)
  {
    PositionsLeft(actions, i + 1);
  }

  /** What the next action can rely on. */
  lemma {:induction false} PuttingReady(code: seq<seq<Item>>, pos: seq<nat>, ofs: seq<nat>, log0: seq<Event>,
                                        actions: seq<Action>,
                                        sec: nat, q0: nat, i: nat, items: seq<Item>, q: nat, e: nat, l: Links)
    requires Putting(code, pos, ofs, log0, actions, sec, q0, i, items, q, e, l) && i < |actions| && Formed(actions)
    requires q0 + 2 + AllPositions(actions, |actions|) <= SecPos(sec + 1)
    ensures l.Ok() && q > 0 && q !in l.cells && q + 1 !in l.cells && q + Positions(actions[i]) <= SecPos(sec + 1)
    ensures actions[i].RelLg? || actions[i].ImmLg? ==> actions[i].lg < 256
  {
    PositionsHere(code, pos, ofs, log0, actions, sec, q0, i, items, q, e, l);
    PuttingFree(code, pos, ofs, log0, actions, sec, q0, i, items, q, e, l, q);
    PuttingFree(code, pos, ofs, log0, actions, sec, q0, i, items, q, e, l, q + 1);
    LabelNumber(actions, i);
  }

  /** What one action does: with `st`, the state goes from `l` to `l'`. */
  ghost predicate Turned(a: Action, q: nat, e: nat, l: Links, l': Links, st: Status) {
    st == ActionStatus(a, l) &&
    (st == S_OK ==>
       l' == ActionLinks(a, q, e, l) && Stepped(l, l', ItemOf(a, q), e, q, q + Positions(a), EventsOf(a, q)))
  }

  lemma {:induction false} PuttingTurned(code: seq<seq<Item>>, pos: seq<nat>, ofs: seq<nat>, log0: seq<Event>,
                                         actions: seq<Action>, sec: nat, q0: nat, i: nat, items: seq<Item>, q: nat,
                                         e: nat, l: Links, l': Links, st: Status)
    requires Putting(code, pos, ofs, log0, actions, sec, q0, i, items, q, e, l) && i < |actions| && Formed(actions)
    requires q + Positions(actions[i]) <= SecPos(sec + 1) && Turned(actions[i], q, e, l, l', st)
    ensures st != S_OK ==> ListPut(actions, i, q, e, l).0 == st
    ensures st == S_OK ==>
      var x, q' := ItemOf(actions[i], q), q + Positions(actions[i]);
      Putting(code, pos, ofs, log0, actions, sec, q0, i + 1, items + [x], q', e + MaxSize(x), l') &&
      ListPut(actions, i, q, e, l) == ListPut(actions, i + 1, q', e + MaxSize(x), l') &&
      l.cells.Keys <= l'.cells.Keys
  {
    hide Putting, ActionStatus, ActionLinks, ListPut, Formed;
    ListPutNext(actions, i, q, e, l, l', st);
    if st == S_OK { PuttingNext(code, pos, ofs, log0, actions, sec, q0, i, items, q, e, l, l'); }
  }

  lemma {:induction false} PutEnds(code: seq<seq<Item>>, pos: seq<nat>, ofs: seq<nat>, log0: seq<Event>,
                                   actions: seq<Action>, sec: nat, q0: nat, items: seq<Item>, q: nat, e: nat, l: Links)
    requires Putting(code, pos, ofs, log0, actions, sec, q0, |actions|, items, q, e, l) && Trimmed(code)
    ensures q == q0 + AllPositions(actions, |actions|)
    ensures SecsOk(code[sec := items], pos[sec := q], ofs[sec := e], l) && DefsPlaced(code[sec := items], l.log)
    ensures Trimmed(code[sec := items]) && l.Ok() && l.log == log0 + AllEvents(actions, q0, |actions|)
    ensures items == code[sec] + ItemsOf(actions, q0, |actions|)
  {
    hide SecsOk, DefsPlaced, Led, Masked;
    var code' := code[sec := items];
    forall s {:trigger code'[s]} | 0 <= s < |code'| ensures Led(code'[s]) && Masked(code'[s]) {
      assert s != sec ==> code'[s] == code[s];
    }
  }

  lemma {:induction false} TrimmedAll(code: seq<seq<Item>>)
    requires Trimmed(code)
    ensures Led(All(code))
    ensures forall k {:trigger All(code)[k]} :: 0 <= k < |All(code)| && All(code)[k].Align? ==> Mask(All(code)[k].mask)
  {
    AllLed(code, |code|);
    forall k {:trigger All(code)[k]} | 0 <= k < |All(code)| && All(code)[k].Align? ensures Mask(All(code)[k].mask) {
      var s, i := Locate(code, |code|, k);
      IndexIs(code, s, i);
      assert Masked(code[s]) && code[s][i] == All(code)[k];
    }
  }

  lemma {:induction false} LinkingSizes(code: seq<seq<Item>>, pos: seq<nat>, ofs: seq<nat>, l1: Links, l: Links,
                                        fs: seq<nat>, q: nat, s: nat, i: nat, adj: int)
    requires LinkingAt(code, pos, ofs, l1, l, fs, q, s, i, adj)
    ensures |ofs| == |code| && forall i {:trigger ofs[i]} :: 0 <= i < |ofs| ==> ofs[i] == Estimate(code[i])
  {
    SizesAre(code, pos, ofs, l1);
  }

  lemma {:induction false} Started(code: seq<seq<Item>>, pos: seq<nat>, ofs: seq<nat>, l0: Links, l1: Links)
    requires SecsOk(code, pos, ofs, l0) && DefsPlaced(code, l0.log) && l0.Ok() && l0.Marks(l1, FIRST_GLOBAL, |l0.lg|)
    requires |l0.lg| >= 10 && (l0.log == [] || 0 in l0.cells)
    ensures SecsOk(code, pos, ofs, l1) && LinkingSection(code, pos, ofs, l1, l1, [], 0, 0, 0)
  {
    SecsMarked(code, pos, ofs, l0, l1, FIRST_GLOBAL, |l0.lg|);
    AllAimed(code, pos, ofs, l0, l1, FIRST_GLOBAL, |l0.lg|);
    LinkStarts(code, pos, ofs, l1);
  }

  /** Pass 3 has written the first `n` items. */
  ghost predicate Encoding(all: seq<Item>, fs: seq<nat>, out: seq<nat>, w: World, now: seq<int>, n: nat) {
    Flags(all, fs) && Ready(all, fs, w) && Emitted(all, fs, out, w, n) && Exported(all, fs, w.base, w.globals, now, n)
  }

  /** The address of the program makes no difference to what pass 3 needs. */
  lemma {:induction false} ReadyAnywhere(all: seq<Item>, fs: seq<nat>, w: World, base: int)
    requires Ready(all, fs, w)
    ensures Ready(all, fs, w.(base := base))
  {
    var w' := w.(base := base);
    forall k: nat {:trigger ReadyAt(all, fs, w', k)} | k < |all|
      ensures ReadyAt(all, fs, w', k)
    {
      assert ReadyAt(all, fs, w, k);
    }
    forall k {:trigger all[k]} | 0 <= k < |all| ensures RefOk(all[k], w') { assert RefOk(all[k], w); }
  }

  lemma {:induction false} EncodingStarts(all: seq<Item>, fs: seq<nat>, w: World, base: int)
    requires Ready(all, fs, w)
    ensures Encoding(all, fs, [], w.(base := base), w.globals, 0)
  {
    ReadyAnywhere(all, fs, w, base);
    assert all[..0] == [] && fs[..0] == [];
  }

  /** What pass 3 finds for the next item. */
  lemma {:induction false} EncodingAt(all: seq<Item>, fs: seq<nat>, out: seq<nat>, w: World, now: seq<int>, n: nat)
    requires Encoding(all, fs, out, w, now, n) && n < |all|
    ensures |fs| == |all|
    ensures var x, f := all[n], fs[n];
      RefOk(x, w) && Flag(x, f) && (x.Align? ==> Mask(x.mask)) && Back(f) <= |out| && |now| == |w.globals| &&
      ((x.Rel? || x.Addr?) && w.cells[x.slot] < 0 ==> now[-w.cells[x.slot]] == w.globals[-w.cells[x.slot]]) &&
      (x.Rel? ==>
        x.slot + 1 in w.cells && w.cells[x.slot + 1] == f && (w.cells[x.slot] < 0 ==> f == 0) && |out| > 0 &&
        out[|out| - 1] == x.op && (f != 0 ==> f == 3 || f == 4)) &&
      (x.Here? ==> x.slot in w.cells && w.cells[x.slot] == Ofs(all, fs, n))
  {
    assert ReadyAt(all, fs, w, n) && RefOk(all[n], w) && Flag(all[n], fs[n]);
    OpcodeAt(all, fs, n);
    EmittedNext(all, fs, out, w, n);
    if all[n].Rel? { OpcodeWritten(all, fs, out, w, n); }
    if (all[n].Rel? || all[n].Addr?) && w.cells[all[n].slot] < 0 { MarkedKept(all, fs, w, now, n, n); }
  }

  lemma {:induction false} EncodingNext(all: seq<Item>, fs: seq<nat>, out: seq<nat>, w: World, now: seq<int>, n: nat)
    requires Encoding(all, fs, out, w, now, n) && n < |all|
    ensures var x := all[n];
      RefOk(x, w) && Back(fs[n]) <= |out| && After(x, fs[n], |out|) >= 0 && (x.Here? ==> x.slot in w.cells) &&
      Encoding(all, fs, Emit(x, fs[n], out, After(x, fs[n], |out|), w), w,
               if x.Here? && x.tag.Lg? && 10 <= x.tag.idx < |now| then now[x.tag.idx := w.base + w.cells[x.slot]]
                 else now, n + 1)
  {
    EncodingAt(all, fs, out, w, now, n);
    OfsNext(all, fs, n);
    EmittedNext(all, fs, out, w, n);
    ExportedNext(all, fs, w.base, w.globals, now, n);
    hide Ready, Emitted, Exported, Ofs, Emit, Flags;
  }

  lemma {:induction false} EncodingEnds(code: seq<seq<Item>>, fs: seq<nat>, out: seq<nat>, w: World, now: seq<int>)
    requires Encoding(All(code), fs, out, w, now, Index(code, |code|, 0))
    ensures Flags(All(code), fs) && Emitted(All(code), fs, out, w, |All(code)|) &&
      |out| == Ofs(All(code), fs, |All(code)|)
    ensures Exported(All(code), fs, w.base, w.globals, now, |All(code)|)
  {
  }

  class X86State {
    const t: LabelTable
    const maxsection: nat
    var section: nat              // the active section
    var pos: seq<nat>             // the end of each section's buffer
    var ofs: seq<nat>             // the estimated size of each section
    var code: seq<seq<Item>>      // what was put into each section
    var status: Status
    var codesize: int
    var globals: seq<int>         // the addresses of global labels

    ghost predicate Valid()
      reads this, t
    {
      |code| == |pos| == |ofs| == maxsection && section < maxsection && t.View().Ok() &&
      |t.lglabels| == |globals| >= 10 &&
      SecsOk(code, pos, ofs, t.View()) && DefsPlaced(code, t.log) && Trimmed(code) &&
      (0 in t.cells || (section == 0 && pos[0] == 0 && t.log == []))
    }

    /** dasm_init, dasm_setupglobal, dasm_growpc and dasm_setup; `globals` is what the
        caller provides for global labels. */
    constructor (maxsection: nat, maxpc: nat, globals: seq<int>)
      requires maxsection > 0 && |globals| >= 10
      ensures Valid() && status == S_OK && fresh(t) && t.View() == NoLinks(|globals| - 10, maxpc)
      ensures this.globals == globals && this.maxsection == maxsection && section == 0
      ensures code == seq(maxsection, s => []) && pos == seq(maxsection, (s: nat) => SecPos(s))
      ensures ofs == seq(maxsection, s => 0)
    {
      this.maxsection, this.globals := maxsection, globals;
      t := new LabelTable(|globals| - 10, maxpc);
      section, status, codesize := 0, S_OK, 0;
      pos := seq(maxsection, (s: nat) => SecPos(s));
      ofs := seq(maxsection, s => 0);
      code := seq(maxsection, s => []);
    }

    // ----- pass 1 -----

    /** A reference: DASM_REL_LG, DASM_REL_PC, DASM_IMM_LG and DASM_IMM_PC. */
    method PutReference(a: Action, q: nat, e: nat)
      requires t.View().Ok() && q > 0 && q !in t.cells && q + 1 !in t.cells && |t.lglabels| >= 10 && status == S_OK
      requires IsReference(a) && (a.RelLg? || a.ImmLg? ==> a.lg < 256)
      modifies this`status, t
      ensures |t.lglabels| == old(|t.lglabels|) && status == ActionStatus(a, old(t.View()))
      ensures status == S_OK ==>
        t.View() == ActionLinks(a, q, e, old(t.View())) &&
        Stepped(old(t.View()), t.View(), ItemOf(a, q), e, q, q + Positions(a), EventsOf(a, q))
    {
      hide Links.Ok, Links.Extends, Stepped, Links.Plain, Links.NotRef, Links.Chained, Links.Bound;
      if a.RelLg? || a.ImmLg? {
        if a.lg > 246 {
          t.PutForward(q, a.lg - 246);
        } else {
          if a.lg < 10 && t.lglabels[a.lg] >= 0 { status := S_RANGE_LG; return; }
          if a.lg >= |t.lglabels| { status := S_RANGE_LG; return; }
          t.PutRel(q, Lg(a.lg));
        }
      } else {
        if a.pc < 0 || a.pc >= |t.pclabels| { status := S_RANGE_PC; return; }
        t.PutRel(q, Pc(a.pc));
      }
      RefPutIs(old(t.View()), a, q);
      if a.RelLg? || a.RelPc? {
        t.View().StoredExtends(q + 1, e + 4);
        t.Store(q + 1, e + 4);
      }
      RefStepped(old(t.View()), t.View(), a, e, q);
    }

    /** DASM_LABEL_LG and DASM_LABEL_PC */
    method PutLabel(a: Action, q: nat, e: nat)
      requires t.View().Ok() && q > 0 && q !in t.cells && status == S_OK && IsLabel(a)
      modifies this`status, t
      ensures |t.lglabels| == old(|t.lglabels|) && status == ActionStatus(a, old(t.View()))
      ensures status == S_OK ==>
        t.View() == ActionLinks(a, q, e, old(t.View())) &&
        Stepped(old(t.View()), t.View(), ItemOf(a, q), e, q, q + Positions(a), EventsOf(a, q))
    {
      if a.LabelLg? {
        if a.lg >= |t.lglabels| { status := S_RANGE_LG; return; }
      } else {
        if a.pc < 0 || a.pc >= |t.pclabels| { status := S_RANGE_PC; return; }
      }
      LabelStepped(t.View(), a, e, q);
      t.PutLabel(q, Tag(a), e);
    }

    /** One action, at position `q` and the estimated offset `e`. */
    method PutAction(a: Action, q: nat, e: nat)
      requires t.View().Ok() && q > 0 && q !in t.cells && q + 1 !in t.cells && |t.lglabels| >= 10 && status == S_OK
      requires a.RelLg? || a.ImmLg? ==> a.lg < 256
      modifies this`status, t
      ensures |t.lglabels| == old(|t.lglabels|) && Turned(a, q, e, old(t.View()), t.View(), status)
    {
      if !Accepts(a) {
        status := S_RANGE_I;
      } else if IsReference(a) {
        PutReference(a, q, e);
      } else if IsLabel(a) {
        PutLabel(a, q, e);
      } else {
        OtherStepped(t.View(), if a.AlignTo? then t.View().(cells := t.cells[q := e + a.mask]) else t.View(), a, e, q);
        if a.AlignTo? {
          t.View().StoredExtends(q, e + a.mask);
          t.Store(q, e + a.mask);
        }
      }
    }

    /** The actions of a list, put into section `sec` from position `q0` on. */
    method PutActions(actions: seq<Action>, sec: nat, q0: nat, e0: nat) returns (items: seq<Item>, q: nat, e: nat)
      requires sec < |code| && Putting(code, pos, ofs, t.log, actions, sec, q0, 0, code[sec], q0, e0, t.View())
      requires |t.lglabels| >= 10 && status == S_OK && Formed(actions)
      requires q0 + 2 + AllPositions(actions, |actions|) <= SecPos(sec + 1)
      modifies this`status, t
      ensures |t.lglabels| == old(|t.lglabels|)
      ensures var r := ListPut(actions, 0, q0, e0, old(t.View())); status == r.0 && (status == S_OK ==> t.View() == r.1)
      ensures status == S_OK ==>
        Putting(code, pos, ofs, old(t.log), actions, sec, q0, |actions|, items, q, e, t.View()) &&
        old(t.cells).Keys <= t.cells.Keys
    {
      hide Putting, Formed, ItemsOf, Positions, ItemOf, MaxSize, Links.Ok, AllPositions, ListPut, Turned;
      ghost var log0, put := t.log, ListPut(actions, 0, q0, e0, t.View());
      q, e, items := q0, e0, code[sec];
      var i: nat := 0;
      while i < |actions|
        invariant Putting(code, pos, ofs, log0, actions, sec, q0, i, items, q, e, t.View()) && status == S_OK
        invariant |t.lglabels| == old(|t.lglabels|) && i <= |actions|
        invariant ListPut(actions, i, q, e, t.View()) == put && old(t.cells).Keys <= t.cells.Keys
        decreases |actions| - i
      {
        ghost var l := t.View();
        PuttingReady(code, pos, ofs, log0, actions, sec, q0, i, items, q, e, l);
        PutAction(actions[i], q, e);
        PuttingTurned(code, pos, ofs, log0, actions, sec, q0, i, items, q, e, l, t.View(), status);
        if status != S_OK { return; }
        items, q, e := items + [ItemOf(actions[i], q)], q + Positions(actions[i]), e + MaxSize(ItemOf(actions[i], q));
        i := i + 1;
      }
      ListPutEnds(actions, q, e, t.View());
    }

    /** A whole list, put into the active section, whose new end and size are not recorded
        yet. */
    method PutList(start: nat, actions: seq<Action>) returns (items: seq<Item>, q: nat, e: nat)
      requires Valid() && status == S_OK && Formed(actions)
      requires pos[section] + 3 + AllPositions(actions, |actions|) <= SecPos(section + 1)
      modifies this`status, t
      ensures |pos| == |ofs| == |code| && |t.lglabels| == old(|t.lglabels|)
      ensures var r := ListPutAt(start, actions, pos[section], ofs[section], old(t.View()));
        status == r.0 && (status == S_OK ==> t.View() == r.1)
      ensures status == S_OK ==>
        Putting(code, pos, ofs, old(t.log), actions, section, pos[section] + 1, |actions|, items, q, e, t.View()) &&
        pos[section] in t.cells && (0 in old(t.cells) ==> 0 in t.cells)
    {
      hide Putting, DefsPlaced, Trimmed, Formed, Links.Ok, SecsOk, AllPositions, ListPut;
      PuttingStarts(code, pos, ofs, actions, section, t.View(), start);
      t.Store(pos[section], start);
      items, q, e := PutActions(actions, section, pos[section] + 1, ofs[section]);
    }

    /** dasm_put. A section's buffer has less than 2^24 positions. */
    method Put(start: nat, actions: seq<Action>, end: End)
      requires Valid() && status == S_OK && Formed(actions)
      requires pos[section] + 3 + AllPositions(actions, |actions|) <= SecPos(section + 1)
      modifies this, t
      ensures |old(pos)| == |old(ofs)| == maxsection && globals == old(globals)
      ensures status == PutStatus(start, actions, end, old(pos)[old(section)], old(ofs)[old(section)], old(t.View()),
                                  maxsection)
      ensures status == S_OK ==>
        t.View() == ListPutAt(start, actions, old(pos)[old(section)], old(ofs)[old(section)], old(t.View())).1
      ensures status == S_OK ==>
        pos == old(pos)[old(section) := old(pos)[old(section)] + 1 + AllPositions(actions, |actions|)]
      ensures status == S_OK ==>
        Valid() && t.log == old(t.log) + AllEvents(actions, old(pos)[old(section)] + 1, |actions|)
      ensures status == S_OK ==>
        code == old(code)[old(section) := old(code)[old(section)] +
          ItemsOf(actions, old(pos)[old(section)] + 1, |actions|)]
      ensures status == S_OK ==> section == if end.Section? then end.n else old(section)
    {
      hide Putting, DefsPlaced, Trimmed, Formed, AllEvents, ItemsOf, Links.Ok, SecsOk, AllPositions, ListPutAt;
      var sec := section;
      ghost var log0 := t.log;
      var items, q, e := PutList(start, actions);
      if status != S_OK { return; }
      if end.Section? {
        if end.n >= maxsection { status := S_RANGE_SEC; return; }
        section := end.n;
      }
      PutEnds(code, pos, ofs, log0, actions, sec, pos[sec] + 1, items, q, e, t.View());
      pos, ofs, code := pos[sec := q], ofs[sec := e], code[sec := items];
    }

    // ----- pass 2 -----

    /** How much the branch at position `q` in section `s` shrinks. */
    method ShrinkBranch(op: nat, q: nat, s: nat, adj: int)
      returns (f: nat, ghost lofs: int)
      requires Readable(t.cells, q, s, |code|) && |ofs| == |code|
      requires forall i {:trigger ofs[i]} :: 0 <= i < |ofs| ==> ofs[i] == Estimate(code[i])
      ensures f == 0 || (f == Shrink(op) && t.cells[q] >= 0 && -128 - f <= lofs <= 127)
      ensures t.cells[q] >= 0 ==> var lpos: nat := t.cells[q];
        lofs == t.cells[lpos] - t.cells[q + 1] + if lpos > q then Base(code, lpos / 0x1000000) - Base(code, s) else -adj
    {
      f, lofs := Shrink(op), 0;
      if t.cells[q] < 0 { return 0, 0; }
      var lpos: nat := t.cells[q];
      var dist := t.cells[lpos];
      if lpos > q {
        for i := s to lpos / 0x1000000
          invariant dist == t.cells[lpos] + Base(code, i) - Base(code, s)
        {
          BaseNext(code, i);
          assert ofs[i] == Estimate(code[i]);
          dist := dist + ofs[i];
        }
      } else {
        dist := dist - adj;
      }
      dist := dist - t.cells[q + 1];
      lofs := dist;
      if !(-128 - f <= dist <= 127) { f := 0; }
    }

    /** One item: a branch may shrink, a label's offset becomes true, an alignment gives
        back what it does not need. */
    method LinkItem(ghost l1: Links, ghost fs: seq<nat>, ghost q: nat, s: nat, i: nat, adj: int)
      returns (adj': int, ghost f: nat)
      requires s < |code| && LinkingAt(code, pos, ofs, l1, t.View(), fs, q, s, i, adj) && i < |code[s]|
      modifies t`cells
      ensures LinkingAt(code, pos, ofs, l1, t.View(), fs + [f], NextFree(code[s][i], q), s, i + 1, adj')
    {
      hide LinkingAt, NearAt, Flags, Flag, All;
      var x := code[s][i];
      f, adj' := 0, adj;
      ItemCells(code, pos, ofs, l1, t.View(), fs, q, s, i, adj);
      if x.Rel? {
        var n;
        n := LinkBranch(l1, fs, q, s, i, adj);
        f := n;
        ItemLinked(code, pos, ofs, l1, t.View(), fs, q, s, i, adj, f);
        t.cells := t.cells[x.slot + 1 := n];
        adj' := adj - n;
      } else {
        NotBranch(All(code), fs, l1.cells);
        ItemLinked(code, pos, ofs, l1, t.View(), fs, q, s, i, adj, 0);
        if x.Here? {
          t.cells := t.cells[x.slot := t.cells[x.slot] + adj];
        } else if x.Align? {
          adj' := adj - (t.cells[x.slot] + adj) % (x.mask + 1);
        }
      }
    }

    /** How much the branch that pass 2 has come to shrinks. */
    method LinkBranch(ghost l1: Links, ghost fs: seq<nat>, ghost q: nat, s: nat, i: nat, adj: int) returns (f: nat)
      requires s < |code| && LinkingAt(code, pos, ofs, l1, t.View(), fs, q, s, i, adj) && i < |code[s]| &&
        code[s][i].Rel?
      ensures |fs| < |All(code)| && Flag(code[s][i], f) && NearAt(All(code), fs + [f], l1.cells, |fs|)
    {
      hide LinkingAt, InSight, NearAt, All, Flags;
      var x := code[s][i];
      ghost var lofs;
      ghost var m := BranchTarget(code, pos, ofs, l1, t.View(), fs, q, s, i, adj);
      LinkingSizes(code, pos, ofs, l1, t.View(), fs, q, s, i, adj);
      BranchReadable(code, pos, ofs, l1, t.View(), fs, q, s, i, adj);
      f, lofs := ShrinkBranch(x.op, x.slot, s, adj);
      if t.cells[x.slot] < 0 {
        NotShrunk(All(code), fs, l1.cells);
      } else if Targeted(All(code), l1.cells[x.slot]) {
        Decided(code, s, l1, t.View(), fs, adj, m, f, lofs);
      } else {
        Unlabelled(All(code), fs, l1.cells, f);
      }
    }

    /** The items of one section. */
    method LinkSection(ghost l1: Links, ghost fs0: seq<nat>, ghost q0: nat, s: nat, adj0: int)
      returns (adj: int, ghost fs: seq<nat>, ghost q: nat)
      requires LinkingSection(code, pos, ofs, l1, t.View(), fs0, q0, s, adj0) && s < |code|
      modifies t`cells
      ensures s < |ofs| && LinkingSection(code, pos, ofs, l1, t.View(), fs, q, s + 1, adj + ofs[s])
    {
      adj, fs, q := adj0, fs0, q0;
      SectionStarts(code, pos, ofs, l1, t.View(), fs, q, s, adj);
      hide LinkingAt, LinkingSection;
      for i := 0 to |code[s]|
        invariant LinkingAt(code, pos, ofs, l1, t.View(), fs, q, s, i, adj)
      {
        ghost var f;
        adj, f := LinkItem(l1, fs, q, s, i, adj);
        fs, q := fs + [f], NextFree(code[s][i], q);
      }
      SectionEnds(code, pos, ofs, l1, t.View(), fs, q, s, adj);
    }

    /** dasm_link. Without an error, labels hold their true offsets, branches how much they
        are shrunk, and the size is that of the program. */
    method Link() returns (st: Status, size: int, ghost l1: Links, ghost fs: seq<nat>, ghost q: nat)
      requires Valid()
      modifies this`codesize, t`cells
      ensures status == S_OK ==> st == S_OK || st.S_UNDEF_PC?
      ensures st != S_OK <==> status != S_OK || exists pc :: 0 <= pc < |t.pclabels| && t.pclabels[pc] > 0
      ensures st == S_OK ==>
        old(t.View()).Marks(l1, FIRST_GLOBAL, |t.lglabels|) && SecsOk(code, pos, ofs, l1) &&
        Linked(code, l1, t.View(), fs, q) && Flags(All(code), fs) && size == codesize == Offset(All(code), fs) &&
        Ready(All(code), fs, World(0, t.cells, globals))
    {
      size, fs, q, l1 := 0, [], 0, t.View();
      if status != S_OK { return status, 0, l1, [], 0; }
      for pc := 0 to |t.pclabels|
        invariant forall k :: 0 <= k < pc ==> t.pclabels[k] <= 0
      {
        if t.pclabels[pc] > 0 { return S_UNDEF_PC(pc), 0, l1, [], 0; }
      }
      ghost var l0 := t.View();
      t.MarkUndefined(FIRST_GLOBAL);
      l1 := t.View();
      hide *;
      Started(code, pos, ofs, l0, l1);
      size, fs, q := LinkSections(l1);
      TrimmedAll(code);
      LinkedReady(code, pos, ofs, l0, l1, t.View(), fs, q, FIRST_GLOBAL, World(0, t.cells, globals));
      codesize := size;
      st := S_OK;
    }

    /** All sections, one behind the other. */
    method LinkSections(ghost l1: Links) returns (adj: int, ghost fs: seq<nat>, ghost q: nat)
      requires |code| == maxsection && LinkingSection(code, pos, ofs, l1, t.View(), [], 0, 0, 0)
      modifies t`cells
      ensures Linked(code, l1, t.View(), fs, q) && Flags(All(code), fs) && adj == Offset(All(code), fs)
    {
      hide LinkingSection, Linked;
      adj, fs, q := 0, [], 0;
      for s := 0 to maxsection
        invariant LinkingSection(code, pos, ofs, l1, t.View(), fs, q, s, adj)
      {
        adj, fs, q := LinkSection(l1, fs, q, s, adj);
        adj := adj + ofs[s];
      }
      LinkEnds(code, pos, ofs, l1, t.View(), fs, q, adj);
    }

    // ----- pass 3 -----

    /** An alignment: as many bytes as it takes to the next aligned offset. */
    method Pad(out0: seq<nat>, m: nat) returns (out: seq<nat>)
      requires Mask(m)
      ensures out == out0 + Repeat(NOP, AlignUp(|out0|, m) - |out0|) && AlignUp(|out0|, m) >= |out0|
    {
      out := out0;
      ghost var n: nat := 0;
      AlignUpBounds(|out0|, m);
      assert out0 + Repeat(NOP, 0) == out0;
      while |out| % (m + 1) != 0
        invariant |out| == |out0| + n && out == out0 + Repeat(NOP, n) &&
          AlignUp(|out|, m) == AlignUp(|out0|, m) >= |out|
        decreases AlignUp(|out0|, m) - |out|
      {
        PadNext(|out|, m);
        RepeatMore(NOP, n);
        assert out + [NOP] == out0 + (Repeat(NOP, n) + [NOP]);
        out, n := out + [NOP], n + 1;
      }
      PadNext(|out|, m);
    }

    /** DASM_SPACE */
    method FillBytes(out0: seq<nat>, b: nat, count: nat) returns (out: seq<nat>)
      ensures out == out0 + Repeat(b, count)
    {
      out := out0;
      assert out0 + Repeat(b, 0) == out0;
      for n := 0 to count
        invariant out == out0 + Repeat(b, n)
      {
        RepeatMore(b, n);
        assert out + [b] == out0 + (Repeat(b, n) + [b]);
        out := out + [b];
      }
    }

    /** DASM_REL_LG and DASM_REL_PC */
    method EncodeBranch(base: int, x: Item, out0: seq<nat>, ghost f: nat, ghost w: World) returns (out: seq<nat>)
      requires x.Rel? && RefOk(x, w) && w.base == base && w.cells == t.cells && Flag(x, f) && |out0| > 0
      requires t.cells[x.slot] < 0 ==>
        -t.cells[x.slot] < |globals| && globals[-t.cells[x.slot]] == w.globals[-t.cells[x.slot]]
      requires x.slot + 1 in t.cells && t.cells[x.slot + 1] == f && (t.cells[x.slot] < 0 ==> f == 0)
      requires Back(f) <= |out0| && out0[|out0| - 1] == x.op && (f != 0 ==> f == 3 || f == 4)
      ensures out == Emit(x, f, out0, |out0| + 4 - f, w)
    {
      hide LittleEndian;
      var n := t.cells[x.slot];
      if n < 0 {
        return out0 + LittleEndian(globals[-n] - (base + |out0| + 4), 4);
      }
      var shrink := t.cells[x.slot + 1];
      var d := t.cells[n] - (|out0| + 4 - shrink);
      if shrink == 0 {
        out := out0 + LittleEndian(d, 4);
      } else if shrink == 4 {
        out := out0[..|out0| - 2] + [(out0[|out0| - 1] - 0x10) % 256] + LittleEndian(d, 1);
      } else {
        assert shrink == 3;
        out := out0[..|out0| - 1] + [0xeb] + LittleEndian(d, 1);
      }
    }

    /** One item. */
    method EncodeItem(base: int, x: Item, out0: seq<nat>, ghost f: nat, ghost w: World) returns (out: seq<nat>)
      requires RefOk(x, w) && w.base == base && w.cells == t.cells && Flag(x, f) && (x.Align? ==> Mask(x.mask)) &&
        Back(f) <= |out0|
      requires (x.Rel? || x.Addr?) && t.cells[x.slot] < 0 ==>
        -t.cells[x.slot] < |globals| && globals[-t.cells[x.slot]] == w.globals[-t.cells[x.slot]]
      requires x.Rel? ==>
        x.slot + 1 in t.cells && t.cells[x.slot + 1] == f && (t.cells[x.slot] < 0 ==> f == 0) && |out0| > 0 &&
        out0[|out0| - 1] == x.op && (f != 0 ==> f == 3 || f == 4)
      requires x.Here? && x.tag.Lg? && 10 <= x.tag.idx < |globals| ==> x.slot in t.cells
      modifies this`globals
      ensures After(x, f, |out0|) >= 0 && out == Emit(x, f, out0, After(x, f, |out0|), w)
      ensures globals == if x.Here? && x.tag.Lg? && 10 <= x.tag.idx < |old(globals)|
                         then old(globals)[x.tag.idx := base + t.cells[x.slot]] else old(globals)
    {
      hide LittleEndian, Repeat;
      match x
      case Byte(b) => out := out0 + [b];
      case Value(size, n) => out := out0 + LittleEndian(n, size);
      case Absolute(n) => out := out0 + LittleEndian(n - (base + |out0| + 4), 4);
      case Space(b, count) => out := FillBytes(out0, b, count);
      case Align(m, _) => out := Pad(out0, m);
      case Here(tag, slot) =>
        out := out0;
        if tag.Lg? && 10 <= tag.idx < |globals| { globals := globals[tag.idx := base + t.cells[slot]]; }
      case Addr(slot) =>
        var n := t.cells[slot];
        out := out0 + LittleEndian(if n < 0 then globals[-n] else t.cells[n] + base, 4);
      case Rel(_, _) => out := EncodeBranch(base, x, out0, f, w);
    }

    /** The items of one section. */
    method EncodeSection(base: int, s: nat, out0: seq<nat>, ghost fs: seq<nat>, ghost w: World) returns (out: seq<nat>)
      requires s < |code| && w.base == base && w.cells == t.cells
      requires Encoding(All(code), fs, out0, w, globals, Index(code, s, 0))
      modifies this`globals
      ensures Encoding(All(code), fs, out, w, globals, Index(code, s + 1, 0))
    {
      hide Encoding, All, Emit, After, Flag, Mask;
      out := out0;
      for i := 0 to |code[s]|
        invariant Encoding(All(code), fs, out, w, globals, Index(code, s, i))
      {
        IndexIs(code, s, i);
        ghost var n := Index(code, s, i);
        EncodingAt(All(code), fs, out, w, globals, n);
        EncodingNext(All(code), fs, out, w, globals, n);
        out := EncodeItem(base, code[s][i], out, fs[n], w);
      }
    }

    /** dasm_encode, after dasm_link without an error: writes each item at its true offset,
        exactly as many bytes as dasm_link promised, and the addresses of global labels. */
    method Encode(base: int, ghost fs: seq<nat>) returns (st: Status, out: seq<nat>)
      requires |code| == maxsection && Ready(All(code), fs, World(0, t.cells, globals)) &&
        codesize == Ofs(All(code), fs, |All(code)|)
      modifies this`globals
      ensures st == S_OK && |out| == codesize &&
        Emitted(All(code), fs, out, World(base, t.cells, old(globals)), |All(code)|)
      ensures Exported(All(code), fs, base, old(globals), globals, |All(code)|)
    {
      ghost var w := World(base, t.cells, globals);
      EncodingStarts(All(code), fs, World(0, t.cells, globals), base);
      hide Encoding, Emitted, Exported, Ready, Ofs;
      out := [];
      for s := 0 to maxsection
        invariant |code| == maxsection && Encoding(All(code), fs, out, w, globals, Index(code, s, 0))
      {
        out := EncodeSection(base, s, out, fs, w);
      }
      EncodingEnds(code, fs, out, w, globals);
      if |out| != codesize { return S_PHASE, out; }
      st := S_OK;
    }
  }
}
