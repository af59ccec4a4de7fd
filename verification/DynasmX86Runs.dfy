/** Whole runs of dasm_x86.h, from the lists that are put to the finished program. */
module DynasmX86Runs {
  import opened DynasmLabels
  import opened DynasmX86
  import opened DynasmX86Passes
  import opened DynasmX86Encode
  import opened DynasmX86State

  /** A call of dasm_put. */
  datatype Put = Put(start: nat, actions: seq<Action>, end: End)

  predicate Puts(puts: seq<Put>) {
    forall k {:trigger puts[k]} :: 0 <= k < |puts| ==> Formed(puts[k].actions)
  }

  function Needs(p: Put): nat { 1 + AllPositions(p.actions, |p.actions|) }

  /** The buffer positions that the first `k` calls use. */
  function Uses(puts: seq<Put>, k: nat): nat
    requires k <= |puts|
  {
    if k == 0 then 0 else Uses(puts, k - 1) + Needs(puts[k - 1])
  }

  lemma {:induction false} UsesGrow(puts: seq<Put>, k: nat)
    requires k <= |puts|
    ensures Uses(puts, k) <= Uses(puts, |puts|)
    decreases |puts| - k
  {
    if k < |puts| { UsesGrow(puts, k + 1); }
  }

  /** What calls leave: the items of each section, the active section, the end of each
      section's buffer, and what was referred to and defined. */
  datatype Layout = Layout(code: seq<seq<Item>>, section: nat, pos: seq<nat>, log: seq<Event>)

  function LaidNext(l: Layout, p: Put): Layout
    requires l.section < |l.code| == |l.pos|
  {
    var s, n := l.section, |p.actions|;
    Layout(l.code[s := l.code[s] + ItemsOf(p.actions, l.pos[s] + 1, n)], if p.end.Section? then p.end.n else s,
           l.pos[s := l.pos[s] + Needs(p)], l.log + AllEvents(p.actions, l.pos[s] + 1, n))
  }

  /** A switch to a section that does not exist is an error; nothing comes after it. */
  function Laid(maxsection: nat, puts: seq<Put>, k: nat): (l: Layout)
    requires k <= |puts|
    ensures |l.code| == |l.pos| == maxsection
  {
    if k == 0 then Layout(seq(maxsection, s => []), 0, seq(maxsection, (s: nat) => SecPos(s)), [])
    else
      var l := Laid(maxsection, puts, k - 1);
      if l.section < maxsection then LaidNext(l, puts[k - 1]) else l
  }

  ghost predicate At(d: X86State, l: Layout)
    reads d, d.t
  {
    d.code == l.code && d.section == l.section && d.pos == l.pos && d.t.log == l.log
  }

  /** No section's buffer has more positions than all calls use. */
  predicate Roomy(pos: seq<nat>, n: nat) { forall s {:trigger pos[s]} :: 0 <= s < |pos| ==> pos[s] <= SecPos(s) + n }

  method PutNext(d: X86State, p: Put, ghost l: Layout, ghost n: nat)
    requires d.Valid() && d.status == S_OK && At(d, l) && Roomy(d.pos, n) && Formed(p.actions)
    requires n + Needs(p) + 2 <= 0x100_0000
    modifies d, d.t
    ensures !d.status.S_PHASE? && d.globals == old(d.globals)
    ensures d.status == S_OK ==>
      d.Valid() && l.section < |l.code| == |l.pos| && At(d, LaidNext(l, p)) && Roomy(d.pos, n + Needs(p))
  {
    hide SecsOk, DefsPlaced, Links.Ok, Trimmed, Formed, AllEvents, ItemsOf, AllPositions, PutStatus, ListPutAt;
    assert d.pos[d.section] <= SecPos(d.section) + n;
    d.Put(p.start, p.actions, p.end);
  }

  method PutAll(d: X86State, puts: seq<Put>)
    requires d.Valid() && d.status == S_OK && Puts(puts) && Uses(puts, |puts|) + 2 <= 0x100_0000
    requires At(d, Laid(d.maxsection, puts, 0)) && Roomy(d.pos, 0)
    modifies d, d.t
    ensures !d.status.S_PHASE? && d.globals == old(d.globals)
    ensures d.status == S_OK ==> d.Valid() && At(d, Laid(d.maxsection, puts, |puts|))
  {
    hide X86State.Valid, Roomy, At, LaidNext, Formed, AllPositions;
    for k := 0 to |puts|
      invariant d.Valid() && d.status == S_OK && d.globals == old(d.globals)
      invariant At(d, Laid(d.maxsection, puts, k)) && Roomy(d.pos, Uses(puts, k))
    {
      UsesGrow(puts, k + 1);
      PutNext(d, puts[k], Laid(d.maxsection, puts, k), Uses(puts, k));
      if d.status != S_OK { return; }
    }
  }

  /** The branch at item `k` leads to the label of the definition at position `q`. */
  ghost predicate Reaches(all: seq<Item>, fs: seq<nat>, out: seq<nat>, k: nat, q: nat) {
    Flags(all, fs) && k < |all| && all[k].Rel? &&
    exists m: nat :: m < |all| && all[m].Here? && all[m].slot == q && LeadsTo(all, fs, out, k, Ofs(all, fs, m))
  }

  /** Every branch reaches the definition that it asks for. */
  ghost predicate AllReach(all: seq<Item>, fs: seq<nat>, out: seq<nat>, log: seq<Event>) {
    forall i: nat, j: nat, k: nat {:trigger Binds(log, i, j), Reaches(all, fs, out, k, log[j].pos)} ::
      Binds(log, i, j) && k < |all| && all[k].Rel? && all[k].slot == log[i].pos ==> Reaches(all, fs, out, k, log[j].pos)
  }

  lemma {:induction false} AllReached(code: seq<seq<Item>>, pos: seq<nat>, ofs: seq<nat>, l0: Links, l1: Links,
                                      l: Links, fs: seq<nat>, q: nat, from: nat, out: seq<nat>, w: World)
    requires l0.Ok() && l0.Marks(l1, from, |l0.lg|) && DefsPlaced(code, l0.log)
    requires SecsOk(code, pos, ofs, l1) && Linked(code, l1, l, fs, q) && w.cells == l.cells && Ready(All(code), fs, w)
    requires Emitted(All(code), fs, out, w, |All(code)|) && |out| < 0x8000_0000
    ensures AllReach(All(code), fs, out, l0.log)
  {
    var all, log := All(code), l0.log;
    hide Links.Ok, Links.Marks, DefsPlaced, SecsOk, Linked, Ready, Emitted, All, Ofs, LeadsTo;
    forall i: nat, j: nat, k: nat {:trigger Binds(log, i, j), Reaches(all, fs, out, k, log[j].pos)}
      | Binds(log, i, j) && k < |all| && all[k].Rel? && all[k].slot == log[i].pos
      ensures Reaches(all, fs, out, k, log[j].pos)
    {
      var m := ReferenceReaches(code, pos, ofs, l0, l1, l, fs, q, from, out, w, k, i, j);
    }
  }

  lemma {:induction false} WholeOffset(all: seq<Item>, fs: seq<nat>)
    requires Flags(all, fs)
    ensures Ofs(all, fs, |all|) == Offset(all, fs)
  {
    assert all[..|all|] == all && fs[..|all|] == fs;
  }

  /** What the program is: each item at its true offset, the addresses of the global
      labels, and branches that reach their labels. `cells` is what the section buffers
      hold in the end, and `fs` how much each branch is shrunk. */
  ghost predicate Assembled(code: seq<seq<Item>>, log: seq<Event>, base: int, was: seq<int>, now: seq<int>,
                            out: seq<nat>, fs: seq<nat>, cells: map<nat, int>) {
    var all := All(code);
    Flags(all, fs) && |out| == Offset(all, fs) && Emitted(all, fs, out, World(base, cells, was), |all|) &&
    Exported(all, fs, base, was, now, |all|) && (|out| < 0x8000_0000 ==> AllReach(all, fs, out, log))
  }

  /** dasm_link and dasm_encode. */
  method Finish(d: X86State, base: int)
    returns (st: Status, out: seq<nat>, ghost fs: seq<nat>, ghost cells: map<nat, int>)
    requires d.Valid() && d.status == S_OK
    modifies d, d.t
    ensures !st.S_PHASE?
    ensures st == S_OK <==> forall pc :: 0 <= pc < |d.t.pclabels| ==> d.t.pclabels[pc] <= 0
    ensures st == S_OK ==>
      Assembled(old(d.code), old(d.t.log), base, old(d.globals), d.globals, out, fs, cells)
  {
    assert d.t.View().Ok() && DefsPlaced(d.code, d.t.log) && |d.t.lglabels| == |d.globals|;
    hide Links.Ok, Links.Marks, DefsPlaced, SecsOk, Linked, Ready, Emitted, Exported, All, Ofs, Offset, AllReach,
      Trimmed;
    ghost var l0 := d.t.View();
    var size;
    ghost var l1, q;
    st, size, l1, fs, q := d.Link();
    out, cells := [], d.t.cells;
    if st != S_OK { return; }
    WholeOffset(All(d.code), fs);
    ReadyAnywhere(All(d.code), fs, World(0, d.t.cells, d.globals), base);
    st, out := d.Encode(base, fs);
    if |out| < 0x8000_0000 {
      AllReached(d.code, d.pos, d.ofs, l0, l1, d.t.View(), fs, q, FIRST_GLOBAL, out,
                 World(base, cells, old(d.globals)));
    }
  }

  /** dasm_init to dasm_encode: the lists put, linked, and encoded for the address `base`.
      `globals` are the addresses of the global labels before, and `now` behind that. */
  method Assemble(maxsection: nat, maxpc: nat, globals: seq<int>, puts: seq<Put>, base: int)
    returns (st: Status, out: seq<nat>, now: seq<int>, ghost fs: seq<nat>, ghost cells: map<nat, int>)
    requires maxsection > 0 && |globals| >= 10 && Puts(puts) && Uses(puts, |puts|) + 2 <= 0x100_0000
    ensures !st.S_PHASE?
    ensures st == S_OK ==>
      var l := Laid(maxsection, puts, |puts|);
      Assembled(l.code, l.log, base, globals, now, out, fs, cells)
  {
    hide Assembled, SecsOk, DefsPlaced, Links.Ok, Trimmed, Formed, AllPositions;
    out, fs, cells := [], [], map[];
    var d := new X86State(maxsection, maxpc, globals);
    PutAll(d, puts);
    st := d.status;
    if st == S_OK { st, out, fs, cells := Finish(d, base); }
    now := d.globals;
  }
}
