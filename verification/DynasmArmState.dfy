/** The encoding state of dasm_arm.h and its three passes. Pass 1 stores the arguments
    of action lists in section buffers, threads labels, and estimates offsets; pass 2
    makes the offsets of labels true; pass 3 writes the program. */
module DynasmArmState {
  import opened DynasmLabels
  import opened DynasmArm
  import opened DynasmArmPasses

  /** The first label index that pass 2 checks for undefined globals. */
  const FIRST_MARKED: nat := 20

  class ArmState {
    const list: ActionList
    const t: LabelTable
    const maxsection: nat
    var section: nat              // the active section
    var pos: seq<nat>             // the end of each section's buffer
    var ofs: seq<nat>             // the estimated size of each section
    var status: Status
    var codesize: nat
    ghost var starts: seq<seq<nat>>

    ghost predicate Valid()
      reads this, t
    {
      |starts| == |pos| == |ofs| == maxsection && section < maxsection &&
      t.View().Ok() && |t.lglabels| >= 10 &&
      SecsOk(list, starts, pos, ofs, t.View()) && DefsPlaced(list, starts, t.log) &&
      (0 in t.cells || (section == 0 && pos[0] == 0 && t.log == []))
    }

    constructor (list: ActionList, maxsection: nat, maxgl: nat, maxpc: nat)
      requires maxsection > 0
      ensures Valid() && status == S_OK && fresh(t) && this.list == list && this.maxsection == maxsection && t.log == []
      ensures section == 0 && starts == seq(maxsection, s => []) && pos == seq(maxsection, (s: nat) => SecPos(s))
      ensures ofs == seq(maxsection, s => 0)
      ensures t.View() == NoLinks(maxgl, maxpc)
    {
      this.list, this.maxsection := list, maxsection;
      t := new LabelTable(maxgl, maxpc);
      section, status, codesize := 0, S_OK, 0;
      pos := seq(maxsection, (s: nat) => SecPos(s));
      ofs := seq(maxsection, s => 0);
      starts := seq(maxsection, s => []);
    }

    // ----- pass 1 -----

    /** DASM_REL_LG */
    method PutRelLg(p: nat, q: nat, ghost e: nat)
      requires p < |list.words| && list.Act(p) == DASM_REL_LG
      requires t.View().Ok() && q > 0 && q !in t.cells && |t.lglabels| >= 10 && status == S_OK
      modifies this`status, t
      ensures status == ActionStatus(list, p, 0, old(t.View()))
      ensures status == S_OK ==>
        t.View() == ActionLinks(list, p, q, e, 0, old(t.View())) &&
        Stepped(old(t.View()), t.View(), list.ItemAt(p, q), e, q, EventAt(list.words[p], q, 0))
    {
      var ins := list.words[p];
      var n := ins % 2048;
      if n >= 10 {
        var idx := n - 10;
        if idx < 10 && t.lglabels[idx] >= 0 {
          status := S_RANGE_LG(p);
        } else if idx >= |t.lglabels| {
          status := S_RANGE_LG(p);
        } else {
          RelStepped(t.View(), ins, q, Lg(idx), false, e);
          t.PutRel(q, Lg(idx));
        }
      } else {
        RelStepped(t.View(), ins, q, Lg(n), true, e);
        t.PutForward(q, n);
      }
    }

    /** DASM_REL_PC */
    method PutRelPc(p: nat, q: nat, n: int, ghost e: nat)
      requires p < |list.words| && list.Act(p) == DASM_REL_PC
      requires t.View().Ok() && q > 0 && q !in t.cells && status == S_OK
      modifies this`status, t
      ensures status == ActionStatus(list, p, n, old(t.View()))
      ensures status == S_OK ==>
        t.View() == ActionLinks(list, p, q, e, n, old(t.View())) &&
        Stepped(old(t.View()), t.View(), list.ItemAt(p, q), e, q, EventAt(list.words[p], q, n))
    {
      if n < 0 || n >= |t.pclabels| {
        status := S_RANGE_PC(p);
      } else {
        RelStepped(t.View(), list.words[p], q, Pc(n), false, e);
        t.PutRel(q, Pc(n));
      }
    }

    /** DASM_LABEL_LG and DASM_LABEL_PC */
    method PutLabel(p: nat, q: nat, n: int, e: nat)
      requires p < |list.words| && (list.Act(p) == DASM_LABEL_LG || list.Act(p) == DASM_LABEL_PC)
      requires t.View().Ok() && q > 0 && q !in t.cells && status == S_OK
      modifies this`status, t
      ensures status == ActionStatus(list, p, n, old(t.View()))
      ensures status == S_OK ==>
        t.View() == ActionLinks(list, p, q, e, n, old(t.View())) &&
        Stepped(old(t.View()), t.View(), list.ItemAt(p, q), e, q, EventAt(list.words[p], q, n))
    {
      var ins := list.words[p];
      if list.Act(p) == DASM_LABEL_LG {
        var idx := (ins % 2048) as int - 10;
        if idx < 0 || idx >= |t.lglabels| {
          status := S_RANGE_LG(p);
        } else {
          LabelStepped(t.View(), ins, q, Lg(idx), e);
          t.PutLabel(q, Lg(idx), e);
        }
      } else if n < 0 || n >= |t.pclabels| {
        status := S_RANGE_PC(p);
      } else {
        LabelStepped(t.View(), ins, q, Pc(n), e);
        t.PutLabel(q, Pc(n), e);
      }
    }

    /** Stores a value for an alignment or an immediate. */
    method PutValue(i: Item, q: nat, e: nat, v: int)
      requires t.View().Ok() && q > 0 && q !in t.cells
      requires i.Imm? || (i.Align? && v == e + i.mask)
      requires (i.Imm? || i.Align?) && i.slot == q
      modifies t
      ensures Stepped(old(t.View()), t.View(), i, e, q, [])
      ensures t.View() == old(t.View()).(cells := old(t.cells)[q := v])
    {
      t.View().StoredExtends(q, v);
      t.Store(q, v);
      assert t.log == old(t.log) + [];
    }

    /** One action that uses a buffer position; `n` is its argument. */
    method PutAction(p: nat, q: nat, e: nat, n: int)
      requires p < |list.words| && list.Slotted(p) && t.View().Ok() && q > 0 && q !in t.cells
      requires |t.lglabels| >= 10 && status == S_OK
      modifies this`status, t
      ensures status == ActionStatus(list, p, n, old(t.View()))
      ensures status == S_OK ==>
        t.View() == ActionLinks(list, p, q, e, n, old(t.View())) &&
        Stepped(old(t.View()), t.View(), list.ItemAt(p, q), e, q, EventAt(list.words[p], q, n))
    {
      var ins, a := list.words[p], list.Act(p);
      if a == DASM_ALIGN {
        PutValue(list.ItemAt(p, q), q, e, e + ins % 256);
      } else if a == DASM_REL_LG {
        PutRelLg(p, q, e);
      } else if a == DASM_REL_PC {
        PutRelPc(p, q, n, e);
      } else if a == DASM_LABEL_LG || a == DASM_LABEL_PC {
        PutLabel(p, q, n, e);
      } else {
        var ok := CheckImm(ins, n);
        if !ok {
          status := S_RANGE_I(p);
        } else {
          PutValue(list.ItemAt(p, q), q, e, ImmValue(ins, n));
        }
      }
    }

    /** The range checks of immediates. */
    method CheckImm(ins: nat, n: int) returns (ok: bool)
      ensures ok == ImmOk(ins, n)
    {
      if Action(ins) == DASM_IMM12 {
        var r := Imm12(n % W32);
        return r != -1;
      }
      ok := ImmOk(ins, n);
    }

    /** One action, at `g.p`. */
    method PutTurn(p: nat, q: nat, e: nat, rest: seq<int>, ghost g: Progress)
      requires g.p == p && g.q == q && g.e == e && g.rest == rest && status == S_OK && |t.lglabels| >= 10
      requires list.Formed(p) && list.Args(p) <= |rest| && !list.Last(p)
      requires t.View().Ok() && q > 0 && (list.Slotted(p) ==> q !in t.cells)
      modifies this`status, t
      ensures Turned(list, g, old(t.View()), t.View(), status)
    {
      hide Stepped, EventAt, Links.Ok, ActionStatus, ActionLinks, ActionList.Patching;
      if list.Slotted(p) {
        PutAction(p, q, e, if list.Argued(p) then rest[0] else 0);
      }
    }

    /** The actions of a list, up to its end at `p`. */
    method PutItems(start: nat, q0: nat, e0: nat, args: seq<int>)
      returns (p: nat, q: nat, e: nat, ghost g: Progress)
      requires list.Formed(start) && list.Args(start) <= |args| && |t.lglabels| >= 10 && status == S_OK
      requires t.View().Ok() && forall x :: q0 <= x < q0 + 1 + list.Slots(start) ==> x !in t.cells
      modifies this`status, t
      ensures var r := Putting(list, start, q0, e0, args, old(t.View()));
        status == r.0 && (status == S_OK ==> t.View() == r.1)
      ensures status == S_OK ==>
        Along(list, start, q0, args, g) && Holding(old(t.View()), t.View(), start, q0, e0, g) &&
        g.p == p && g.q == q && g.e == e && list.Last(p) && p == list.Stop(start)
    {
      hide Stepped, EventAt, Links.Ok, ActionList.Patching, ListPut, ActionStatus, ActionLinks, Along, Holding, Turned;
      ghost var l0 := t.View();
      g := StartOf(start, q0, e0, args);
      ListStarts(list, start, q0, e0, args, l0);
      l0.StoredExtends(q0, start);
      t.Store(q0, start);
      var rest;
      p, q, e, rest := start, q0 + 1, e0, args;
      ghost var put := ListPut(list, p, q, e, rest, t.View());
      TurnReady(list, start, q0, e0, args, l0, t.View(), g);
      while !list.Last(p)
        invariant g.p == p && g.q == q && g.e == e && g.rest == rest && status == S_OK
        invariant Along(list, start, q0, args, g) && Holding(l0, t.View(), start, q0, e0, g)
        invariant list.Formed(p) && list.Args(p) <= |rest| && list.Stop(p) == list.Stop(start)
        invariant ListPut(list, p, q, e, rest, t.View()) == put
        decreases |list.words| - p
      {
        TurnReady(list, start, q0, e0, args, l0, t.View(), g);
        ghost var l := t.View();
        PutTurn(p, q, e, rest, g);
        TurnDone(list, start, q0, e0, args, l0, l, t.View(), g, status);
        if status != S_OK { return; }
        g := Advance(list, g);
        TurnReady(list, start, q0, e0, args, l0, t.View(), g);
        rest := if list.Argued(p) then rest[1..] else rest;
        e := e + (if list.Act(p) >= DASM_MAX || list.Act(p) == DASM_ESC then 4
                  else if list.Act(p) == DASM_ALIGN then list.words[p] % 256 else 0);
        q := if list.Slotted(p) then q + 1 else q;
        p := list.Next(p);
      }
      TurnsEnd(list, start, q0, e0, args, l0, t.View(), g);
    }

    /** A list put into the active section, whose new end and size are not recorded yet. */
    method PutList(start: nat, args: seq<int>) returns (p: nat, q: nat, e: nat)
      requires Valid() && status == S_OK
      requires list.Formed(start) && list.Patching(start, false) && list.Args(start) <= |args|
      requires pos[section] + 1 + list.Slots(start) <= SecPos(section + 1)
      modifies this`status, t
      ensures |pos| == |ofs| == maxsection
      ensures var r := Putting(list, start, pos[section], ofs[section], args, old(t.View()));
        status == r.0 && (status == S_OK ==> t.View() == r.1)
      ensures status == S_OK ==>
        var s, starts' := section, starts[section := starts[section] + [start]];
        SecsOk(list, starts', pos[s := q], ofs[s := e], t.View()) && DefsPlaced(list, starts', t.log) &&
        t.View().Ok() && |t.lglabels| == old(|t.lglabels|) && |t.pclabels| == old(|t.pclabels|) &&
        p == list.Stop(start) && q == pos[s] + 1 + list.Slots(start) &&
        t.log == old(t.log) + Events(list, start, pos[s] + 1, args) &&
        pos[s] in t.cells && (0 in old(t.cells) ==> 0 in t.cells)
    {
      hide SecsOk, SecOk, DefsPlaced, Links.Ok, Events, Along, Holding, ActionList.Formed, ActionList.Patching,
        ActionList.Stop, ActionList.Slots, ActionList.Args, Putting;
      SecRoom(list, starts, pos, ofs, t.View(), section, 1 + list.Slots(start));
      var q0, e0 := pos[section], ofs[section];
      ghost var l0 := t.View();
      ghost var g;
      p, q, e, g := PutItems(start, q0, e0, args);
      if status != S_OK { return; }
      PutDone(list, starts, pos, ofs, l0, t.View(), section, start, args, g);
    }

    /** dasm_put. The caller gives the arguments that the list asks for, and a section's
        buffer has less than 2^24 positions. */
    method Put(start: nat, args: seq<int>)
      requires Valid() && status == S_OK
      requires list.Formed(start) && list.Patching(start, false) && list.Args(start) <= |args|
      requires pos[section] + 1 + list.Slots(start) <= SecPos(section + 1)
      modifies this, t
      ensures |old(pos)| == |old(ofs)| == maxsection
      ensures status ==
        PutStatus(list, start, old(pos)[old(section)], old(ofs)[old(section)], args, old(t.View()), maxsection)
      ensures status == S_OK ==>
        t.View() == Putting(list, start, old(pos)[old(section)], old(ofs)[old(section)], args, old(t.View())).1
      ensures status == S_OK ==> Valid() && |t.lglabels| == old(|t.lglabels|) && |t.pclabels| == old(|t.pclabels|)
      ensures status == S_OK ==> starts == old(starts)[old(section) := old(starts)[old(section)] + [start]]
      ensures status == S_OK ==> section == list.SectionAfter(start, old(section))
      ensures status == S_OK ==> pos == old(pos)[old(section) := old(pos)[old(section)] + 1 + list.Slots(start)]
      ensures status == S_OK ==> t.log == old(t.log) + Events(list, start, old(pos)[old(section)] + 1, args)
    {
      hide SecsOk, DefsPlaced, Links.Ok, Events, ActionList.Stop, Putting, ActionList.Formed, ActionList.Patching,
        ActionList.Slots, ActionList.Args;
      var sec := section;
      var p, q, e := PutList(start, args);
      if status != S_OK { return; }
      if list.Act(p) == DASM_SECTION {
        var n := list.words[p] % 256;
        if n >= maxsection {
          status := S_RANGE_SEC(p);
          return;
        }
        section := n;
      }
      pos := pos[sec := q];
      ofs := ofs[sec := e];
      starts := starts[sec := starts[sec] + [start]];
    }

    // ----- pass 2 -----

    /** One action: an alignment shrinks, a label's offset becomes true. */
    method LinkAction(ghost l1: Links, ghost done: seq<Item>, p: nat, q: nat, adj: int, ghost e: nat)
      returns (adj': int)
      requires InList(list, l1, p, q, e, adj, done) && Linking(l1, t.View(), done, q) && !list.Last(p)
      modifies t`cells
      ensures var x, q' := list.ItemAt(p, q), if list.Slotted(p) then q + 1 else q;
        InList(list, l1, list.Next(p), q', e + MaxSize(x), adj', done + [x]) && Linking(l1, t.View(), done + [x], q')
    {
      ghost var x, l := list.ItemAt(p, q), t.View();
      adj' := adj;
      InListNext(list, l1, p, q, e, adj, done, if x.Align? then adj - (e + x.mask + adj) % (x.mask + 1) else adj);
      if list.Slotted(p) {
        LinkingAt(l1, l, done, q);
        if list.Act(p) == DASM_ALIGN {
          adj' := adj - (t.cells[q] + adj) % (list.words[p] % 256 + 1);
        } else if list.Act(p) == DASM_LABEL_LG || list.Act(p) == DASM_LABEL_PC {
          t.cells := t.cells[q := t.cells[q] + adj];
        }
      }
      LinkingNext(l1, l, t.View(), done, q, x, if list.Slotted(p) then q + 1 else q);
    }

    /** The actions of one list. */
    method LinkList(ghost l1: Links, ghost done0: seq<Item>, p0: nat, q0: nat, adj0: int, ghost e0: nat)
      returns (q: nat, adj: int, ghost done: seq<Item>)
      requires InList(list, l1, p0, q0, e0, adj0, done0) && Linking(l1, t.View(), done0, q0)
      modifies t`cells
      ensures done == done0 + list.Items(p0, q0) && q == q0 + list.Slots(p0) && Linking(l1, t.View(), done, q)
      ensures adj + e0 + Estimate(list.Items(p0, q0)) == Offset(done, 0)
    {
      hide Linking, Offset, Filled;
      var p := p0;
      ghost var e: nat := e0;
      q, adj, done := q0, adj0, done0;
      while !list.Last(p)
        invariant InList(list, l1, p, q, e, adj, done) && Linking(l1, t.View(), done, q)
        invariant done + list.Items(p, q) == done0 + list.Items(p0, q0) && q + list.Slots(p) == q0 + list.Slots(p0)
        invariant e + Estimate(list.Items(p, q)) == e0 + Estimate(list.Items(p0, q0))
        decreases |list.words| - p
      {
        ItemMoves(list, p, q, done);
        adj := LinkAction(l1, done, p, q, adj, e);
        e, done := e + MaxSize(list.ItemAt(p, q)), done + [list.ItemAt(p, q)];
        p, q := list.Next(p), if list.Slotted(p) then q + 1 else q;
      }
      assert done + [] == done;
    }

    /** One list of a section: its start, and its items. */
    method LinkBlock(ghost l1: Links, q: nat, adj: int, ghost c: Place, ghost all: seq<Item>, ghost end: nat,
                     ghost size: nat)
      returns (q': nat, adj': int, ghost c': Place)
      requires InSection(list, l1, c) && Linking(l1, t.View(), c.done, q) && c.ss != [] && c.q == q && c.adj == adj
      requires Covers(list, c, all, end, size)
      modifies t`cells
      ensures InSection(list, l1, c') && Linking(l1, t.View(), c'.done, q') && c'.q == q' && c'.adj == adj'
      ensures Covers(list, c', all, end, size) && |c'.ss| < |c.ss|
    {
      BlockStarts(list, l1, c);
      LinkingAt(l1, t.View(), c.done, q);
      LinkingLater(l1, t.View(), c.done, q, q + 1);
      var start: nat := t.cells[q];
      assert start == c.ss[0];
      hide Stored, Linking, Offset, Estimate;
      ghost var done;
      q', adj', done := LinkList(l1, c.done, start, q + 1, adj, c.e);
      BlockMoves(list, l1, c, adj', all, end, size);
      c' := NextPlace(list, c, adj');
      assert c'.done == done;
    }

    /** The lists of one section. */
    method LinkSection(ghost l1: Links, ghost done0: seq<Item>, s: nat, adj0: int)
      returns (adj: int, ghost done: seq<Item>)
      requires s < |starts| == |pos| && s < |ofs| && SecOk(list, s, starts[s], pos[s], ofs[s], l1)
      requires Linking(l1, t.View(), done0, SecPos(s)) && adj0 == Offset(done0, 0)
      modifies t`cells
      ensures done == done0 + list.Blocks(starts[s], SecPos(s)) && Linking(l1, t.View(), done, pos[s])
      ensures adj + ofs[s] == Offset(done, 0)
    {
      var q: nat, lastpos := SecPos(s), pos[s];
      ghost var all, size := done0 + list.Blocks(starts[s], q), ofs[s];
      ghost var c := Place(starts[s], q, 0, adj0, done0);
      adj, done := adj0, done0;
      while q != lastpos
        invariant c.q == q && c.adj == adj && c.done == done
        invariant InSection(list, l1, c) && Covers(list, c, all, lastpos, size) && Linking(l1, t.View(), done, q)
        decreases |c.ss|
      {
        SectionEnds(list, c, all, lastpos, size);
        q, adj, c := LinkBlock(l1, q, adj, c, all, lastpos, size);
        done := c.done;
      }
      SectionEnds(list, c, all, lastpos, size);
    }

    /** The items of the whole program. */
    ghost function Program(): seq<Item>
      requires ListsFormed(list, starts)
      reads this`starts
    {
      AllItems(list, starts, 0)
    }

    /** The state in which pass 3 works: pass 2 has linked the whole program, and every
        reference that is not marked as undefined can be followed. */
    ghost predicate Linked(l1: Links)
      reads this, t
    {
      SecsOk(list, starts, pos, ofs, l1) && ListsFormed(list, starts) && |starts| == maxsection &&
      Linking(l1, t.View(), Program(), SecPos(maxsection)) && Reachable(Program(), t.cells) &&
      codesize == Offset(Program(), 0)
    }

    /** A PC label that is used but not defined stops pass 2. */
    method CheckPcLabels() returns (st: Status)
      ensures st == S_OK <==> forall pc :: 0 <= pc < |t.pclabels| ==> t.pclabels[pc] <= 0
      ensures st == S_OK || st.S_UNDEF_PC?
    {
      for pc := 0 to |t.pclabels|
        invariant forall k :: 0 <= k < pc ==> t.pclabels[k] <= 0
      {
        if t.pclabels[pc] > 0 { return S_UNDEF_PC(pc); }
      }
      st := S_OK;
    }

    /** dasm_link. The ghost result is the state with undefined globals marked. */
    method Link() returns (size: nat, st: Status, ghost marked: Links)
      requires Valid()
      modifies this`codesize, t`cells
      ensures old(status) == S_OK ==> st == S_OK || st.S_UNDEF_PC?
      ensures st == S_OK <==> old(status) == S_OK && forall pc :: 0 <= pc < |t.pclabels| ==> t.pclabels[pc] <= 0
      ensures st == S_OK ==>
        old(t.View()).Marks(marked, FIRST_MARKED, if FIRST_MARKED < |t.lglabels| then |t.lglabels| else FIRST_MARKED) &&
        ListsFormed(list, starts) && Linking(marked, t.View(), Program(), SecPos(maxsection)) &&
        size == codesize == Offset(Program(), 0) && Linked(marked)
    {
      size, marked := 0, t.View();
      st := status;
      if st == S_OK { st := CheckPcLabels(); }
      if st != S_OK { return; }
      ghost var l0 := t.View();
      t.MarkUndefined(FIRST_MARKED);
      marked := t.View();
      SecsMarked(list, starts, pos, ofs, l0, marked, FIRST_MARKED,
                 if FIRST_MARKED < |t.lglabels| then |t.lglabels| else FIRST_MARKED);
      LinkSections(marked);
      size := codesize;
      ProgramFounded(list, starts, pos, ofs, marked, 0);
      AllReachable(l0, marked, t.View(), FIRST_MARKED, Program(), SecPos(maxsection));
    }

    /** The next section starts right after this one. */
    method LinkNextSection(ghost l1: Links, ghost done0: seq<Item>, s: nat, adj0: int)
      returns (adj: int, ghost done: seq<Item>)
      requires s < |starts| && SecsOk(list, starts, pos, ofs, l1) && list.AllFormed(starts[s])
      requires Linking(l1, t.View(), done0, SecPos(s)) && adj0 == Offset(done0, 0)
      modifies t`cells
      ensures done == done0 + list.Blocks(starts[s], SecPos(s)) && Linking(l1, t.View(), done, SecPos(s + 1))
      ensures adj == Offset(done, 0)
    {
      SecAt(list, starts, pos, ofs, l1, s);
      adj, done := LinkSection(l1, done0, s, adj0);
      adj := adj + ofs[s];
      LinkingLater(l1, t.View(), done, pos[s], SecPos(s + 1));
    }

    method LinkSections(ghost l1: Links)
      requires SecsOk(list, starts, pos, ofs, l1) && ListsFormed(list, starts) && |starts| == maxsection
      requires l1 == t.View()
      modifies this`codesize, t`cells
      ensures Linking(l1, t.View(), Program(), SecPos(maxsection)) && codesize == Offset(Program(), 0)
    {
      var adj: int := 0;
      ghost var done: seq<Item> := [];
      LinkingNothing(l1);
      hide Linking, SecsOk, Offset;
      for s := 0 to maxsection
        invariant Linking(l1, t.View(), done, SecPos(s)) && adj == Offset(done, 0)
        invariant done + AllItems(list, starts, s) == Program()
      {
        SectionMoves(list, starts, s, done, Program());
        adj, done := LinkNextSection(l1, done, s, adj);
      }
      assert done + [] == done;
      codesize := adj;
    }

    // ----- pass 3 -----

    /** An alignment: fills with instructions that do nothing. */
    method EncodeAlign(buffer: array<nat>, cp: nat, m: nat) returns (cp': nat)
      requires Mask(m) && AlignUp(4 * cp, m) <= 4 * buffer.Length && cp <= buffer.Length
      modifies buffer
      ensures 4 * cp' == AlignUp(4 * cp, m)
      ensures buffer[..cp'] == old(buffer[..cp]) + Nops(Padding(cp, m))
    {
      hide Padding, AlignUp, Mask;
      cp' := cp;
      PaddingIs(cp, m);
      while !Aligned(4 * cp', m)
        invariant cp' - cp + Padding(cp', m) == Padding(cp, m) && cp' >= cp
        invariant cp' <= buffer.Length && buffer[..cp'] == old(buffer[..cp]) + Nops(cp' - cp)
        decreases Padding(cp', m)
      {
        PaddingIs(cp', m);
        NopsMany(cp' - cp);
        hide Nops, Aligned;
        ghost var filled := buffer[..cp'];
        buffer[cp'] := NOP;
        assert buffer[..cp' + 1] == filled + [NOP];
        cp' := cp' + 1;
      }
      PaddingIs(cp', m);
    }

    /** What is or'ed into the instruction before `cp`. */
    method EncodePatch(buffer: array<nat>, cp: nat, field: nat)
      requires 0 < cp <= buffer.Length
      modifies buffer
      ensures buffer[..cp] == PatchLast(old(buffer[..cp]), field)
    {
      buffer[cp - 1] := BitOr(buffer[cp - 1], field);
    }

    /** A reference: checks that it is defined and in range, and patches. */
    method EncodeRel(buffer: array<nat>, cp: nat, p: nat, q: nat) returns (st: Status)
      requires p < |list.words| && (list.Act(p) == DASM_REL_LG || list.Act(p) == DASM_REL_PC)
      requires 0 < cp <= buffer.Length && RefFound(list.ItemAt(p, q), t.cells)
      modifies buffer
      ensures st == S_OK <==> Passes(list.ItemAt(p, q), 4 * cp, t.cells)
      ensures st == S_OK ==> buffer[..cp] == Emit(list.ItemAt(p, q), old(buffer[..cp]), t.cells)
      ensures st != S_PHASE
    {
      hide BitOr, Field, EmitAll;
      var ins := list.words[p];
      if t.cells[q] < 0 { return S_UNDEF_LG(p); }
      var d: nat := t.cells[q];
      var n, f := t.cells[d] - 4 * cp - 4, FormOf(ins);
      if !InRange(f, n) { return S_RANGE_REL(p); }
      EncodePatch(buffer, cp, Field(f, n));
      st := S_OK;
    }

    /** One action. */
    method EncodeAction(buffer: array<nat>, cp: nat, p: nat, q: nat, ghost code: bool) returns (cp': nat, st: Status)
      requires list.Formed(p) && !list.Last(p) && list.Patching(p, code) && (code ==> cp > 0)
      requires cp <= buffer.Length && After(list.ItemAt(p, q), 4 * cp) <= 4 * buffer.Length
      requires RefFound(list.ItemAt(p, q), t.cells) && (list.ItemAt(p, q).Imm? ==> q in t.cells)
      modifies buffer
      ensures st == S_OK <==> Passes(list.ItemAt(p, q), 4 * cp, t.cells)
      ensures st == S_OK ==>
        4 * cp' == After(list.ItemAt(p, q), 4 * cp) &&
        cp' <= buffer.Length && buffer[..cp'] == Emit(list.ItemAt(p, q), old(buffer[..cp]), t.cells)
      ensures st != S_PHASE
    {
      var ins, a := list.words[p], list.Act(p);
      cp', st := cp, S_OK;
      if a >= DASM_MAX || a == DASM_ESC {
        buffer[cp] := if a == DASM_ESC then list.words[p + 1] else ins;
        cp' := cp + 1;
      } else if a == DASM_ALIGN {
        cp' := EncodeAlign(buffer, cp, ins % 256);
      } else if a == DASM_REL_LG || a == DASM_REL_PC {
        st := EncodeRel(buffer, cp, p, q);
      } else if a != DASM_LABEL_LG && a != DASM_LABEL_PC {
        EncodePatch(buffer, cp, ImmField(ins, t.cells[q]));
      }
    }

    /** The next action of the program. */
    method EncodeNext(buffer: array<nat>, ghost all: seq<Item>, ghost rest: seq<Item>, ghost block: seq<Item>,
                      ghost done: seq<Item>, p: nat, q: nat, cp: nat, ghost code: bool)
      returns (cp': nat, st: Status)
      requires Midway(list, all, rest, block, done, p, q) && !list.Last(p)
      requires list.Patching(p, code) && (code ==> cp > 0) && (list.ItemAt(p, q).Imm? ==> q in t.cells)
      requires cp <= buffer.Length && Encoded(done, buffer[..cp], t.cells)
      requires Reachable(all, t.cells) && Masked(all) && Offset(all, 0) == 4 * buffer.Length
      modifies buffer
      ensures st == S_OK ==> cp <= cp' <= buffer.Length && Encoded(done + [list.ItemAt(p, q)], buffer[..cp'], t.cells)
      ensures st == S_OK ==> list.ItemAt(p, q).Code? ==> cp' > 0
      ensures st != S_OK ==> !AllPass(all, 0, t.cells)
      ensures st != S_PHASE
    {
      ghost var x, later := list.ItemAt(p, q), list.Items(list.Next(p), if list.Slotted(p) then q + 1 else q) + rest;
      MidwayNext(list, all, rest, block, done, p, q);
      ProgramAt(all, done, x, later, t.cells);
      EncodedNext(done, buffer[..cp], x, t.cells);
      OffsetGrows([x], 4 * cp);
      cp', st := EncodeAction(buffer, cp, p, q, code);
    }

    /** The actions of one list, with which the program is `block`; then comes `rest`. */
    method EncodeList(buffer: array<nat>, ghost l1: Links, ghost all: seq<Item>, ghost rest: seq<Item>,
                      ghost block: seq<Item>, ghost done0: seq<Item>, p0: nat, q0: nat, cp0: nat, ghost e0: nat)
      returns (q: nat, cp: nat, st: Status)
      requires Midway(list, all, rest, block, done0, p0, q0)
      requires list.Patching(p0, false) && Filled(list.Items(p0, q0), e0, l1) && l1.cells.Keys == t.cells.Keys
      requires cp0 <= buffer.Length && Encoded(done0, buffer[..cp0], t.cells)
      requires Reachable(all, t.cells) && Masked(all) && Offset(all, 0) == 4 * buffer.Length
      modifies buffer
      ensures st == S_OK ==> cp <= buffer.Length && Encoded(block, buffer[..cp], t.cells) && q == q0 + list.Slots(p0)
      ensures st != S_OK ==> !AllPass(all, 0, t.cells)
      ensures st != S_PHASE
    {
      hide Reachable, Masked, AllPass, Encoded, Filled, Offset;
      var p := p0;
      ghost var done, e: nat, code := done0, e0, false;
      q, cp, st := q0, cp0, S_OK;
      while !list.Last(p)
        invariant Midway(list, all, rest, block, done, p, q) && q + list.Slots(p) == q0 + list.Slots(p0)
        invariant list.Patching(p, code) && (code ==> cp > 0) && Filled(list.Items(p, q), e, l1)
        invariant cp <= buffer.Length && Encoded(done, buffer[..cp], t.cells) && st == S_OK
        decreases |list.words| - p
      {
        MidwayNext(list, all, rest, block, done, p, q);
        FilledFirst(list, p, q, e, l1);
        cp, st := EncodeNext(buffer, all, rest, block, done, p, q, cp, code);
        if st != S_OK { return; }
        code := list.Act(p) >= DASM_MAX || list.Act(p) == DASM_ESC || (code && list.Act(p) != DASM_ALIGN);
        done, e := done + [list.ItemAt(p, q)], e + MaxSize(list.ItemAt(p, q));
        p, q := list.Next(p), if list.Slotted(p) then q + 1 else q;
      }
      MidwayEnds(list, all, rest, block, done, p, q);
    }

    /** One list of a section. */
    method EncodeBlock(buffer: array<nat>, ghost l1: Links, q: nat, cp: nat, ghost c: Place, ghost rest: seq<Item>,
                           ghost section: seq<Item>, ghost all: seq<Item>, ghost end: nat, ghost size: nat)
      returns (q': nat, cp': nat, st: Status, ghost c': Place)
      requires PlainSame(l1, t.cells) && all == section + rest
      requires Reachable(all, t.cells) && Masked(all) && 4 * buffer.Length == Offset(all, 0)
      requires InSection(list, l1, c) && Covers(list, c, section, end, size) && c.ss != [] && c.q == q
      requires cp <= buffer.Length && Encoded(c.done, buffer[..cp], t.cells)
      modifies buffer
      ensures st == S_OK ==> cp' <= buffer.Length && Encoded(c'.done, buffer[..cp'], t.cells)
      ensures InSection(list, l1, c') && Covers(list, c', section, end, size) && |c'.ss| < |c.ss|
      ensures (st == S_OK ==> c'.q == q') && (st != S_OK ==> !AllPass(all, 0, t.cells)) && st != S_PHASE
    {
      hide *;
      BlockReady(list, l1, c, section, end, size, rest, t.cells);
      c' := AfterBlock(list, c);
      ghost var later := list.Blocks(c'.ss, c'.q) + rest;
      q', cp', st := EncodeList(buffer, l1, all, later, c'.done, c.done, t.cells[q], q + 1, cp, c.e);
    }

    /** The lists of one section, from position `q0` to `endb`. */
    method EncodeSection(buffer: array<nat>, ghost l1: Links, q0: nat, endb: nat, cp0: nat, ghost c0: Place,
                         ghost section: seq<Item>, ghost rest: seq<Item>, ghost all: seq<Item>, ghost size: nat)
      returns (cp: nat, st: Status)
      requires InSection(list, l1, c0) && Covers(list, c0, section, endb, size) && c0.q == q0
      requires PlainSame(l1, t.cells) && all == section + rest
      requires Reachable(all, t.cells) && Masked(all) && 4 * buffer.Length == Offset(all, 0)
      requires cp0 <= buffer.Length && Encoded(c0.done, buffer[..cp0], t.cells)
      modifies buffer
      ensures st == S_OK ==> cp <= buffer.Length && Encoded(section, buffer[..cp], t.cells)
      ensures st != S_OK ==> !AllPass(all, 0, t.cells)
      ensures st != S_PHASE
    {
      var q := q0;
      ghost var c := c0;
      cp, st := cp0, S_OK;
      while q != endb
        invariant c.q == q && st == S_OK && InSection(list, l1, c) && Covers(list, c, section, endb, size)
        invariant cp <= buffer.Length && Encoded(c.done, buffer[..cp], t.cells)
        decreases |c.ss|
      {
        SectionEnds(list, c, section, endb, size);
        q, cp, st, c := EncodeBlock(buffer, l1, q, cp, c, rest, section, all, endb, size);
        if st != S_OK { return; }
      }
      SectionEnds(list, c, section, endb, size);
    }

    /** dasm_encode, into a buffer of exactly `codesize` bytes. It fails exactly when a
        reference is to a marked global or out of range, and never for its size. */
    method Encode(buffer: array<nat>, ghost l1: Links) returns (st: Status)
      requires Linked(l1) && 4 * buffer.Length == codesize
      modifies buffer
      ensures st == S_OK <==> AllPass(Program(), 0, t.cells)
      ensures st == S_OK ==> buffer[..] == EmitAll(Program(), [], t.cells)
      ensures st != S_PHASE
    {
      var cp: nat := 0;
      ghost var done: seq<Item>, all := [], Program();
      ProgramMasked(list, starts, 0);
      PlainKept(l1, t.View(), all, SecPos(maxsection));
      for s := 0 to maxsection
        invariant done + AllItems(list, starts, s) == all
        invariant cp <= buffer.Length && Encoded(done, buffer[..cp], t.cells)
      {
        SecAt(list, starts, pos, ofs, l1, s);
        SectionMoves(list, starts, s, done, all);
        ghost var section := done + list.Blocks(starts[s], SecPos(s));
        SectionStarts(list, s, starts[s], pos[s], ofs[s], l1, done);
        ghost var c := Place(starts[s], SecPos(s), 0, Offset(done, 0), done);
        cp, st := EncodeSection(buffer, l1, SecPos(s), pos[s], cp, c, section, AllItems(list, starts, s + 1), all,
          ofs[s]);
        if st != S_OK { return; }
        done := section;
      }
      assert done + [] == done == all;
      assert buffer[..cp] == buffer[..];
      if 4 * cp != codesize { return S_PHASE; }
      st := S_OK;
    }

    /** dasm_getpclabel: the offset of a PC label's latest definition. */
    method GetPcLabel(pc: nat, ghost l0: Links, ghost l1: Links) returns (r: int)
      requires ListsFormed(list, starts) && Linking(l1, t.View(), Program(), SecPos(maxsection)) &&
        DefsPlaced(list, starts, t.log)
      requires l0.Ok() && l0.log == t.log && l0.pc == t.pclabels
      ensures pc >= |t.pclabels| ==> r == -2
      ensures pc < |t.pclabels| && t.pclabels[pc] >= 0 ==> r == if t.pclabels[pc] > 0 then -1 else -2
      ensures pc < |t.pclabels| && t.pclabels[pc] < 0 ==>
        exists j: nat, m: nat ::
          j < |t.log| && t.log[j].Def? && t.log[j].tag == Pc(pc) && NoDef(t.log, Pc(pc), j + 1, |t.log|) &&
          m < |Program()| && Program()[m].Label? && Program()[m].slot == t.log[j].pos &&
          r == Offset(Program()[..m], 0)
    {
      if pc < |t.pclabels| {
        var p := t.pclabels[pc];
        if p < 0 {
          ghost var j, m := PcLabelTold(list, starts, l0, l1, t.View(), SecPos(maxsection), pc, -p);
          return t.cells[-p];
        }
        if p > 0 { return -1; }
      }
      r := -2;
    }
  }

  /** Every branch and PC-relative load of a finished program reaches the definition
      that its reference asks for. Loads do so exactly if the distance is not just
      beyond what their operand has room for. */
  lemma {:induction false} ReferenceReaches(list: ActionList, starts: seq<seq<nat>>, l0: Links, l1: Links, l: Links,
                                            z: nat, k: nat, i: nat, j: nat) returns (m: nat)
    requires l0.Ok() && l0.Marks(l1, FIRST_MARKED, if FIRST_MARKED < |l0.lg| then |l0.lg| else FIRST_MARKED)
    requires ListsFormed(list, starts) && DefsPlaced(list, starts, l0.log)
    requires Linking(l1, l, AllItems(list, starts, 0), z) && AllPass(AllItems(list, starts, 0), 0, l.cells)
    requires Binds(l0.log, i, j)
    requires var all := AllItems(list, starts, 0);
      k + 1 < |all| && all[k].Code? && all[k + 1].Rel? && all[k + 1].slot == l0.log[i].pos &&
      Untouched(all[k + 2..]) && Clear(FormOf(all[k + 1].ins), all[k].word)
    ensures var all := AllItems(list, starts, 0);
      ToldAt(all, l.cells, m, l0.log[j].pos) && Points(all, l.cells, k, Offset(all[..m], 0))
  {
    ProgramMasked(list, starts, 0);
    RefAfterLink(l0, l1, l, FIRST_MARKED, if FIRST_MARKED < |l0.lg| then |l0.lg| else FIRST_MARKED,
                 AllItems(list, starts, 0), z, i);
    m := DefinitionTold(list, starts, l0.log, j, l1, l, z);
    WordPoints(AllItems(list, starts, 0), k, l.cells, l0.log[j].pos);
  }

  /** A global label that is used but never defined is marked, so that pass 3 reports
      it, exactly from label index 20 on: the first ten globals are not checked. */
  lemma {:induction false} UndefinedGlobalMarked(l0: Links, l1: Links, l: Links, all: seq<Item>, z: nat, i: nat)
    requires l0.Ok() && l0.Marks(l1, FIRST_MARKED, if FIRST_MARKED < |l0.lg| then |l0.lg| else FIRST_MARKED)
    requires Linking(l1, l, all, z) && Pending(l0.log, i) && l0.log[i].tag.Lg? && !Local(l0.log[i].tag)
    ensures l0.log[i].pos in l.cells && (l.cells[l0.log[i].pos] < 0 <==> l0.log[i].tag.idx >= FIRST_MARKED)
  {
    assert l0.EventOk(i);
    RefAfterLink(l0, l1, l, FIRST_MARKED, if FIRST_MARKED < |l0.lg| then |l0.lg| else FIRST_MARKED, all, z, i);
  }
}
