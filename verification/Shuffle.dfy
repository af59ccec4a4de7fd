/** The register shuffle at the head of a side trace (asm_head_side in lj_asm.c): a
    parallel move from parent registers to target registers, emitted backwards one
    instruction at a time, with cycles broken by renaming a target. */
module Shuffle {

  type Reg = nat
  type Ref = nat

  datatype Move = Move(dst: Reg, src: Reg)

  datatype Outcome = Shuffled | TooComplex

  // ----- machine code -----

  function Step(m: Move, regs: Reg -> int): Reg -> int {
    (x: Reg) => if x == m.dst then regs(m.src) else regs(x)
  }

  /** Runs the moves in program order. */
  function Exec(code: seq<Move>, regs: Reg -> int): Reg -> int
    decreases |code|
  {
    if code == [] then regs else Exec(code[1..], Step(code[0], regs))
  }

  /** The register whose initial value ends up in `x`. */
  function Source(code: seq<Move>, x: Reg): Reg
    decreases |code|
  {
    if code == [] then x
    else
      var y := Source(code[1..], x);
      if y == code[0].dst then code[0].src else y
  }

  lemma {:induction false} ExecMovesFromSource(code: seq<Move>, regs: Reg -> int, x: Reg)
    ensures Exec(code, regs)(x) == regs(Source(code, x))
    decreases |code|
  {
    if code != [] { ExecMovesFromSource(code[1..], Step(code[0], regs), x); }
  }

  lemma {:induction false} PrependMove(m: Move, code: seq<Move>, x: Reg)
    ensures Source([m] + code, x) == if Source(code, x) == m.dst then m.src else Source(code, x)
  {
    assert ([m] + code)[1..] == code;
  }

  /** Registers that no move writes keep their values. */
  lemma {:induction false} UnwrittenKept(code: seq<Move>, regs: Reg -> int, x: Reg)
    requires forall k :: 0 <= k < |code| ==> code[k].dst != x
    ensures Exec(code, regs)(x) == regs(x)
    decreases |code|
  {
    if code != [] { UnwrittenKept(code[1..], Step(code[0], regs), x); }
  }

  // ----- register sets -----

  method PickBot(s: set<Reg>) returns (r: Reg)
    requires s != {}
    ensures r in s && forall x :: x in s ==> r <= x
  {
    ghost var some :| some in s;
    r := 0;
    while r !in s
      invariant r <= some && forall x :: x in s ==> r <= x
      decreases some - r
    {
      r := r + 1;
    }
  }

  // ----- register allocation -----

  /** The part of the assembler state that the shuffle reads and changes. */
  datatype RegState = RegState(
    gpr: set<Reg>,
    fpr: set<Reg>,
    parentmap: map<Ref, Reg>, // the parent register of a reference
    sloadins: map<Reg, Ref>,  // the reference that a live parent register holds
    freeset: set<Reg>,
    allow: set<Reg>,          // registers that may serve as temporaries
    live: set<Reg>,           // parent registers still to be moved
    cost: map<Reg, Ref>,      // the reference that a register is allocated to
    reg: map<Ref, Reg>)       // the register of a reference
  {
    predicate Classed(r: Reg, q: Reg) { (r in gpr && q in gpr) || (r in fpr && q in fpr) }

    /** The live parent register holds a reference that sits in an allocated register
        of the same class. */
    predicate Held(rp: Reg) {
      rp in sloadins &&
      var i := sloadins[rp];
      i in parentmap && parentmap[i] == rp && i in reg && Classed(rp, reg[i]) &&
      reg[i] !in freeset && reg[i] in cost && cost[reg[i]] == i
    }

    /** The allocated register belongs to a reference still to be moved. */
    predicate Owned(r: Reg) {
      r in cost && cost[r] in parentmap && parentmap[cost[r]] in live && parentmap[cost[r]] in sloadins &&
      sloadins[parentmap[cost[r]]] == cost[r] && cost[r] in reg && reg[cost[r]] == r
    }

    ghost predicate Valid() {
      gpr !! fpr &&
      (forall rp :: rp in live ==> Held(rp)) &&
      (forall r :: (r in gpr || r in fpr) && r !in freeset ==> Owned(r))
    }

    /** Where the value that `rp` brings in is expected by the code so far: in the
        register of its reference, or once moved from, in `rp` itself. */
    function Expected(rp: Reg): Reg
      requires rp in sloadins && sloadins[rp] in reg
    {
      if rp in live then reg[sloadins[rp]] else rp
    }

    /** The code so far takes the value from where it is expected to its target. No
        code to come can write `rp` once it was moved from. */
    ghost predicate Settled(code: seq<Move>, g: Goal, rp: Reg) {
      rp in sloadins && sloadins[rp] in g.target && sloadins[rp] in reg &&
      Source(code, g.target[sloadins[rp]]) == Expected(rp) &&
      (rp in live ==> reg[sloadins[rp]] in g.writable) &&
      (rp !in live ==> rp in freeset && rp !in allow)
    }

    ghost predicate Progress(code: seq<Move>, g: Goal) {
      live <= g.all && allow <= g.writable &&
      (forall rp :: rp in g.all ==> Settled(code, g, rp)) &&
      (forall k :: 0 <= k < |code| ==> code[k].dst in g.writable)
    }

    /** A free live register coalesced: its value moves to its target. */
    function Coalesced(rp: Reg): RegState
      requires rp in sloadins && sloadins[rp] in reg
    {
      this.(live := live - {rp}, allow := allow - {rp}, freeset := freeset + {reg[sloadins[rp]]})
    }

    lemma {:induction false} CoalesceKeeps(rp: Reg, code: seq<Move>, g: Goal)
      requires Valid() && Progress(code, g) && rp in freeset && rp in live
      ensures Held(rp)
      ensures Coalesced(rp).Valid()
      ensures Coalesced(rp).Progress([Move(reg[sloadins[rp]], rp)] + code, g)
    {
      var st := Coalesced(rp);
      var m := Move(reg[sloadins[rp]], rp);
      forall rq | rq in g.all
        ensures st.Settled([m] + code, g, rq)
      {
        assert Settled(code, g, rq) && (rq in live ==> Held(rq));
        PrependMove(m, code, g.target[sloadins[rq]]);
      }
      assert forall rq :: rq in st.live ==> Held(rq) && st.Held(rq);
      assert forall r :: (r in gpr || r in fpr) && r !in st.freeset ==> Owned(r) && st.Owned(r);
    }

    /** The reference in `down` renamed to `up`. */
    function Renamed(down: Reg, up: Reg): RegState
      requires down in cost
    {
      this.(freeset := freeset + {down} - {up}, cost := cost[up := cost[down]] - {down},
            reg := reg[cost[down] := up])
    }

    /** `down` holds a reference to be moved, and `up` is a temporary. */
    predicate CanRename(down: Reg, up: Reg) {
      Classed(down, up) && down in live && down !in freeset && up in freeset && up !in live && up in allow
    }

    lemma {:induction false} RenameKeeps(down: Reg, up: Reg, code: seq<Move>, g: Goal)
      requires Valid() && Progress(code, g) && CanRename(down, up)
      ensures down in cost && Renamed(down, up).Valid()
      ensures Renamed(down, up).Progress([Move(down, up)] + code, g)
    {
      assert Owned(down);
      var st := Renamed(down, up);
      var m := Move(down, up);
      forall rq | rq in g.all
        ensures st.Settled([m] + code, g, rq)
      {
        assert Settled(code, g, rq) && (rq in live ==> Held(rq));
        assert Settled(code, g, parentmap[cost[down]]);
        PrependMove(m, code, g.target[sloadins[rq]]);
      }
      assert forall rq :: rq in live ==> Held(rq) && st.Held(rq);
      assert forall r :: (r in gpr || r in fpr) && r !in st.freeset ==> (r != up ==> Owned(r)) && st.Owned(r);
    }

    /** Live registers of the class remain, and none can serve as a temporary. */
    ghost predicate NoTemporary(cls: set<Reg>) {
      live * cls != {} && (freeset - live) * allow * cls == {}
    }

    /** The registers of the references still to be moved. */
    ghost function Targets(): set<Reg>
      requires Valid()
    {
      set rp | rp in live :: reg[sloadins[rp]]
    }

    lemma {:induction false} Starts()
      requires Valid()
      ensures Progress([], Goal(live, reg, Targets() + allow))
    {
      assert forall rp :: rp in live ==> Held(rp) && Settled([], Goal(live, reg, Targets() + allow), rp);
    }
  }

  /** What a shuffle is for: the parent registers to move, the targets of the
      references they hold, and the registers that its moves may write. */
  datatype Goal = Goal(all: set<Reg>, target: map<Ref, Reg>, writable: set<Reg>)

  /** Run as a whole, the code moves the value of every live parent register to the
      register of the reference that it holds: a parallel move. */
  ghost predicate MovesAll(code: seq<Move>, st: RegState) {
    forall regs: Reg -> int, rp: Reg ::
      rp in st.live && rp in st.sloadins && st.sloadins[rp] in st.reg ==>
        Exec(code, regs)(st.reg[st.sloadins[rp]]) == regs(rp)
  }

  lemma {:induction false} SettledMovesAll(code: seq<Move>, start: RegState, st: RegState, g: Goal)
    requires st.Progress(code, g) && st.live == {}
    requires g.all == start.live && g.target == start.reg && st.sloadins == start.sloadins
    ensures MovesAll(code, start)
  {
    forall regs: Reg -> int, rp: Reg | rp in start.live && start.sloadins[rp] in start.reg
      ensures Exec(code, regs)(start.reg[start.sloadins[rp]]) == regs(rp)
    {
      assert st.Settled(code, g, rp);
      ExecMovesFromSource(code, regs, start.reg[start.sloadins[rp]]);
    }
  }

  class AsmState {
    const gpr: set<Reg>
    const fpr: set<Reg>
    const parentmap: map<Ref, Reg>
    const sloadins: map<Reg, Ref>
    var freeset: set<Reg>
    var allow: set<Reg>
    var live: set<Reg>
    var cost: map<Reg, Ref>
    var reg: map<Ref, Reg>
    var mcode: seq<Move>            // machine code, in program order

    constructor (st: RegState)
      ensures State() == st && mcode == []
    {
      gpr, fpr, parentmap, sloadins := st.gpr, st.fpr, st.parentmap, st.sloadins;
      freeset, allow, live, cost, reg := st.freeset, st.allow, st.live, st.cost, st.reg;
      mcode := [];
    }

    ghost function State(): RegState
      reads this
    {
      RegState(gpr, fpr, parentmap, sloadins, freeset, allow, live, cost, reg)
    }

    /** Emits a move. Code is generated backwards, from its last instruction on. */
    method EmitMovRR(dst: Reg, src: Reg)
      modifies this`mcode
      ensures mcode == [Move(dst, src)] + old(mcode)
    {
      mcode := [Move(dst, src)] + mcode;
    }

    /** Renames the reference in `down` to `up`: code emitted before this move has to
        leave its value in `up`. */
    method Rename(down: Reg, up: Reg)
      requires down in cost
      modifies this
      ensures State() == old(State()).Renamed(down, up)
      ensures mcode == [Move(down, up)] + old(mcode)
    {
      var ref := cost[down];
      cost := cost[up := ref];
      reg := reg[ref := up];
      cost := cost - {down};
      freeset := freeset + {down};  // 'down' is free
      freeset := freeset - {up};    // and 'up' is now allocated
      EmitMovRR(down, up);
    }

    ghost predicate Going(code: seq<Move>, g: Goal, tail: seq<Move>)
      reads this
    {
      State().Valid() && State().Progress(code, g) && mcode == code + tail
    }

    /** Repeatedly coalesces free live registers by moving to their target. */
    method CoalesceAll(ghost code: seq<Move>, ghost g: Goal, ghost tail: seq<Move>)
      returns (ghost code': seq<Move>)
      requires Going(code, g, tail)
      modifies this
      ensures Going(code', g, tail)
      ensures freeset * live == {}
      ensures live < old(live) || (live == old(live) && old(freeset * live) == {})
    {
      code' := code;
      var work := freeset * live;
      while work != {}
        invariant work == freeset * live
        invariant Going(code', g, tail)
        invariant live < old(live) || (live == old(live) && work == old(freeset * live))
        decreases live
      {
        var rp := PickBot(work);
        State().CoalesceKeeps(rp, code', g);
        var dst := reg[sloadins[rp]];
        ghost var next := State().Coalesced(rp);
        live := live - {rp};
        allow := allow - {rp};
        freeset := freeset + {dst};
        EmitMovRR(dst, rp);
        assert State() == next;
        assert [Move(dst, rp)] + (code' + tail) == ([Move(dst, rp)] + code') + tail;
        code' := [Move(dst, rp)] + code';
        work := freeset * live;
      }
    }

    /** Breaks a cycle: renames the target in a live register of the class to a free
        register that is neither live nor reserved, or fails if there is none. */
    method BreakCycle(cls: set<Reg>, ghost code: seq<Move>, ghost g: Goal, ghost tail: seq<Move>)
      returns (ok: bool, ghost code': seq<Move>)
      requires Going(code, g, tail)
      requires cls in {gpr, fpr} && live * cls != {}
      requires forall r :: r in live && r in cls ==> r !in freeset
      modifies this
      ensures Going(code', g, tail) && live == old(live) && allow == old(allow)
      ensures !ok ==> State().NoTemporary(cls)
      ensures ok ==> exists down :: down in live && down in freeset
      ensures forall r :: r !in cls ==> (r in freeset <==> r in old(freeset))
    {
      var tmpset := (freeset - live) * allow * cls;
      if tmpset == {} { return false, code; }
      var down := PickBot(live * cls);
      var up := PickBot(tmpset);
      State().RenameKeeps(down, up, code, g);
      Rename(down, up);
      assert [Move(down, up)] + (code + tail) == ([Move(down, up)] + code) + tail;
      assert down in live && down in freeset;
      return true, [Move(down, up)] + code;
    }

    /** Breaks one cycle in each register class that has live registers left. */
    method BreakCycles(ghost code: seq<Move>, ghost g: Goal, ghost tail: seq<Move>)
      returns (ok: bool, ghost code': seq<Move>)
      requires Going(code, g, tail)
      requires live != {} && forall r :: r in live ==> r !in freeset
      modifies this
      ensures Going(code', g, tail) && live == old(live)
      ensures ok ==> exists r :: r in live && r in freeset
      ensures !ok ==> State().NoTemporary(gpr) || State().NoTemporary(fpr)
    {
      code' := code;
      ghost var some :| some in live;
      assert State().Held(some);
      if live * gpr != {} {
        ok, code' := BreakCycle(gpr, code', g, tail);
        if !ok { return; }
      }
      if live * fpr != {} {
        ok, code' := BreakCycle(fpr, code', g, tail);
        if !ok { return; }
      }
      assert some in live * gpr || some in live * fpr;
      ok := true;
    }

    /** Shuffles the live parent registers to the registers of their references. */
    method ShuffleRegs() returns (out: Outcome, ghost code: seq<Move>)
      requires State().Valid()
      modifies this
      ensures mcode == code + old(mcode)
      ensures out.Shuffled? ==> live == {} && MovesAll(code, old(State()))
      ensures forall k :: 0 <= k < |code| ==> code[k].dst in old(State().Targets() + allow)
      ensures out.TooComplex? ==> State().NoTemporary(gpr) || State().NoTemporary(fpr)
    {
      ghost var start := State();
      ghost var g := Goal(live, reg, State().Targets() + allow);
      code := [];
      State().Starts();
      hide RegState.Progress, RegState.Valid, RegState.NoTemporary;
      while true
        invariant Going(code, g, old(mcode)) && State().sloadins == start.sloadins
        decreases |live|, if freeset * live == {} then 1 else 0
      {
        ghost var before := live;
        code := CoalesceAll(code, g, old(mcode));
        if live < before { ProperSubsetIsSmaller(live, before); }
        // done if no live registers remain
        if live == {} {
          SettledMovesAll(code, start, State(), g);
          return Shuffled, code;
        }
        // break cycles by renaming one target to a temporary
        NoneFree(freeset, live);
        var ok;
        ok, code := BreakCycles(code, g, old(mcode));
        if !ok { return TooComplex, code; }
        ghost var r :| r in live && r in freeset;
        assert r in freeset * live;
      }
    }
  }

  lemma {:induction false} NoneFree(a: set<Reg>, b: set<Reg>)
    requires a * b == {}
    ensures forall r :: r in b ==> r !in a
  {
    forall r | r in b
      ensures r !in a
    {
      assert r !in a * b;
    }
  }

  lemma {:induction false} ProperSubsetIsSmaller(a: set<Reg>, b: set<Reg>)
    requires a < b
    ensures |a| < |b|
  {
    assert |b - a| + |a| == |b|;
    var x :| x in b - a;
  }
}
