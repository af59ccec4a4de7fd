/** Whole runs of dasm_arm.h, from the lists that are put to the finished program, and
    the inputs on which it does not do what it is for. */
module DynasmArmRuns {
  import opened DynasmLabels
  import opened DynasmArm
  import opened DynasmArmPasses
  import opened DynasmArmState

  // ----- from the lists to the program -----

  /** A call of dasm_put. */
  datatype Put = Put(start: nat, args: seq<int>)

  predicate Puts(list: ActionList, puts: seq<Put>) {
    forall k {:trigger puts[k]} :: 0 <= k < |puts| ==>
      list.Formed(puts[k].start) && list.Patching(puts[k].start, false) && list.Args(puts[k].start) <= |puts[k].args|
  }

  /** The buffer positions that the calls use. */
  function Uses(list: ActionList, puts: seq<Put>): nat
    requires Puts(list, puts)
    decreases |puts|
  {
    if puts == [] then 0 else Uses(list, puts[..|puts| - 1]) + 1 + list.Slots(puts[|puts| - 1].start)
  }

  /** What the calls leave: the lists of each section, the active section, the end of
      each section's buffer, and what was referred to and defined. */
  datatype Layout = Layout(starts: seq<seq<nat>>, section: nat, pos: seq<nat>, log: seq<Event>)

  function LaidNext(list: ActionList, l: Layout, p: Put): Layout
    requires list.Formed(p.start) && list.Args(p.start) <= |p.args| && l.section < |l.starts| == |l.pos|
  {
    var s := l.section;
    Layout(l.starts[s := l.starts[s] + [p.start]], list.SectionAfter(p.start, s),
           l.pos[s := l.pos[s] + 1 + list.Slots(p.start)], l.log + Events(list, p.start, l.pos[s] + 1, p.args))
  }

  /** A switch to a section that does not exist is an error; nothing comes after it. */
  function Laid(list: ActionList, maxsection: nat, puts: seq<Put>): (l: Layout)
    requires Puts(list, puts)
    ensures |l.starts| == |l.pos| == maxsection
    decreases |puts|
  {
    if puts == [] then Layout(seq(maxsection, s => []), 0, seq(maxsection, (s: nat) => SecPos(s)), [])
    else
      var l := Laid(list, maxsection, puts[..|puts| - 1]);
      if l.section < maxsection then LaidNext(list, l, puts[|puts| - 1]) else l
  }

  ghost predicate At(d: ArmState, l: Layout)
    reads d, d.t
  {
    d.starts == l.starts && d.section == l.section && d.pos == l.pos && d.t.log == l.log
  }

  /** No section's buffer has more positions than all calls use. */
  predicate Roomy(pos: seq<nat>, n: nat) { forall s {:trigger pos[s]} :: 0 <= s < |pos| ==> pos[s] <= SecPos(s) + n }

  lemma {:induction false} UsesGrow(list: ActionList, puts: seq<Put>, k: nat)
    requires Puts(list, puts) && k <= |puts|
    ensures Puts(list, puts[..k]) && Uses(list, puts[..k]) <= Uses(list, puts)
    decreases |puts| - k
  {
    assert forall i :: 0 <= i < k ==> puts[..k][i] == puts[i];
    if k < |puts| {
      UsesGrow(list, puts, k + 1);
      assert puts[..k + 1][..k] == puts[..k] && puts[..k + 1][k] == puts[k];
    } else {
      assert puts[..k] == puts;
    }
  }

  method PutNext(d: ArmState, p: Put, ghost l: Layout, ghost n: nat)
    requires d.Valid() && d.status == S_OK && At(d, l) && Roomy(d.pos, n)
    requires d.list.Formed(p.start) && d.list.Patching(p.start, false) && d.list.Args(p.start) <= |p.args|
    requires n + 1 + d.list.Slots(p.start) <= 0x100_0000
    modifies d, d.t
    ensures d.status != S_PHASE
    ensures d.status == S_OK ==>
      d.Valid() && l.section < |l.starts| == |l.pos| && At(d, LaidNext(d.list, l, p)) &&
      Roomy(d.pos, n + 1 + d.list.Slots(p.start))
  {
    hide SecsOk, DefsPlaced, Links.Ok, Events, ActionList.SectionAfter, ActionList.Slots, PutStatus, Putting,
      ActionList.Formed, ActionList.Patching, ActionList.Args;
    d.Put(p.start, p.args);
  }

  method PutAll(d: ArmState, puts: seq<Put>)
    requires d.Valid() && d.status == S_OK && Puts(d.list, puts) && Uses(d.list, puts) <= 0x100_0000
    requires At(d, Laid(d.list, d.maxsection, [])) && Roomy(d.pos, 0)
    modifies d, d.t
    ensures d.status != S_PHASE
    ensures d.status == S_OK ==> d.Valid() && At(d, Laid(d.list, d.maxsection, puts))
  {
    hide ArmState.Valid, Roomy, At, LaidNext, SecsOk, DefsPlaced, Links.Ok;
    ghost var list := d.list;
    for k := 0 to |puts|
      invariant d.Valid() && d.status == S_OK && Puts(list, puts[..k])
      invariant At(d, Laid(list, d.maxsection, puts[..k])) && Roomy(d.pos, Uses(list, puts[..k]))
    {
      UsesGrow(list, puts, k + 1);
      assert puts[..k + 1][..k] == puts[..k] && puts[..k + 1][k] == puts[k];
      PutNext(d, puts[k], Laid(list, d.maxsection, puts[..k]), Uses(list, puts[..k]));
      if d.status != S_OK { return; }
    }
    assert puts[..|puts|] == puts;
  }

  /** Item `k` is an instruction with the reference at position `q`, and its operand is
      clear until then. */
  predicate RefersAt(all: seq<Item>, k: nat, q: nat) {
    k + 1 < |all| && all[k].Code? && all[k + 1].Rel? && all[k + 1].slot == q && Untouched(all[k + 2..]) &&
    Clear(FormOf(all[k + 1].ins), all[k].word)
  }

  /** The label of the definition at position `q` is where the instruction of item `k`
      points to in the finished program. */
  ghost predicate Reaches(all: seq<Item>, cells: map<nat, int>, k: nat, q: nat) {
    exists m: nat :: ToldAt(all, cells, m, q) && Points(all, cells, k, Offset(all[..m], 0))
  }

  /** Every reference reaches the definition that it asks for. */
  ghost predicate AllReach(all: seq<Item>, cells: map<nat, int>, log: seq<Event>) {
    forall i: nat, j: nat, k: nat {:trigger Binds(log, i, j), Reaches(all, cells, k, log[j].pos)} ::
      Binds(log, i, j) && RefersAt(all, k, log[i].pos) ==> Reaches(all, cells, k, log[j].pos)
  }

  lemma {:induction false} AllReached(list: ActionList, starts: seq<seq<nat>>, l0: Links, l1: Links, l: Links, z: nat)
    requires l0.Ok() && l0.Marks(l1, FIRST_MARKED, if FIRST_MARKED < |l0.lg| then |l0.lg| else FIRST_MARKED)
    requires ListsFormed(list, starts) && DefsPlaced(list, starts, l0.log)
    requires Linking(l1, l, AllItems(list, starts, 0), z) && AllPass(AllItems(list, starts, 0), 0, l.cells)
    ensures AllReach(AllItems(list, starts, 0), l.cells, l0.log)
  {
    var all, log := AllItems(list, starts, 0), l0.log;
    hide Links.Ok, Links.Marks, ListsFormed, DefsPlaced, Linking, AllPass, ToldAt, Points, Clear, Untouched;
    forall i: nat, j: nat, k: nat {:trigger Binds(log, i, j), Reaches(all, l.cells, k, log[j].pos)}
      | Binds(log, i, j) && RefersAt(all, k, log[i].pos)
      ensures Reaches(all, l.cells, k, log[j].pos)
    {
      var m := ReferenceReaches(list, starts, l0, l1, l, z, k, i, j);
    }
  }

  /** dasm_encode, into a buffer of the size that dasm_link gives. */
  method EncodeAll(d: ArmState, ghost marked: Links) returns (st: Status, buffer: array<nat>)
    requires d.Linked(marked)
    ensures fresh(buffer) && 4 * buffer.Length == Offset(d.Program(), 0) && st != S_PHASE
    ensures st == S_OK <==> AllPass(d.Program(), 0, d.t.cells)
    ensures st == S_OK ==> buffer[..] == EmitAll(d.Program(), [], d.t.cells)
  {
    hide AllPass, Reachable, Offset, EmitAll, Masked, SecsOk, Linking;
    ProgramMasked(d.list, d.starts, 0);
    ProgramSize(d.Program(), [], d.t.cells);
    buffer := new nat[d.codesize / 4];
    st := d.Encode(buffer, marked);
  }

  /** dasm_link and dasm_encode. */
  method Finish(d: ArmState) returns (st: Status, buffer: array<nat>, ghost cells: map<nat, int>)
    requires d.Valid() && d.status == S_OK
    modifies d, d.t
    ensures st != S_PHASE
    ensures st == S_OK ==>
      ListsFormed(d.list, old(d.starts)) && DefsPlaced(d.list, old(d.starts), old(d.t.log)) &&
      var all := AllItems(d.list, old(d.starts), 0);
      buffer[..] == EmitAll(all, [], cells) && 4 * buffer.Length == Offset(all, 0) && AllReach(all, cells, old(d.t.log))
  {
    ghost var l0 := d.t.View();
    st, buffer, cells := S_OK, new nat[0], map[];
    assert l0.Ok() && DefsPlaced(d.list, d.starts, l0.log);
    hide ArmState.Linked, SecsOk, Linking, Links.Ok, Links.Marks, AllPass, Reachable, Offset, EmitAll, AllReach, Masked,
      DefsPlaced, ListsFormed;
    var size;
    ghost var marked;
    size, st, marked := d.Link();
    if st != S_OK { return; }
    st, buffer := EncodeAll(d, marked);
    cells := d.t.cells;
    if st == S_OK { AllReached(d.list, d.starts, l0, marked, d.t.View(), SecPos(d.maxsection)); }
  }

  /** dasm_init to dasm_encode: the lists put, linked, and encoded. `cells` is what the
      section buffers hold in the end. */
  method Assemble(list: ActionList, maxsection: nat, maxgl: nat, maxpc: nat, puts: seq<Put>)
    returns (st: Status, buffer: array<nat>, ghost cells: map<nat, int>)
    requires maxsection > 0 && Puts(list, puts) && Uses(list, puts) <= 0x100_0000
    ensures st != S_PHASE
    ensures st == S_OK ==>
      var l := Laid(list, maxsection, puts);
      ListsFormed(list, l.starts) && DefsPlaced(list, l.starts, l.log) &&
      var all := AllItems(list, l.starts, 0);
      buffer[..] == EmitAll(all, [], cells) && 4 * buffer.Length == Offset(all, 0) && AllReach(all, cells, l.log)
  {
    buffer, cells := new nat[0], map[];
    var d := new ArmState(list, maxsection, maxgl, maxpc);
    PutAll(d, puts);
    st := d.status;
    if st == S_OK { st, buffer, cells := Finish(d); }
  }

  // ----- inputs on which the checks fail -----

  /** A load of two words, 264 bytes before the label that it refers to. */
  function FarLoad(): ActionList { ActionList([0xe14000d0, 0x51801, 0x400ff, NOP, NOP, 0x6000b, 0]) }

  function FarItems(): seq<Item> {
    [Code(0xe14000d0), Rel(0x51801, 1), Align(255, 2), Code(NOP), Code(NOP), Label(0x6000b, 3)]
  }

  lemma {:induction false} FarItemsPut()
    ensures FarLoad().Formed(0) && FarLoad().Patching(0, false) && FarLoad().Items(0, 1) == FarItems()
  {
    var list := FarLoad();
    assert list.Items(6, 4) == [];
    assert list.Items(4, 3) == [Code(NOP), Label(0x6000b, 3)];
    assert list.Items(2, 2) == [Align(255, 2), Code(NOP)] + list.Items(4, 3);
  }

  lemma {:induction false} FarLaterUses()
    ensures var list := FarLoad();
      list.Formed(2) && list.Formed(3) && list.Args(2) == 0 && list.Slots(2) == 2
  {
    var list := FarLoad();
    assert list.Formed(6) && list.Formed(5) && list.Formed(4) && list.Formed(3);
    assert list.Args(5) == 0 && list.Slots(5) == 1;
    assert list.Args(3) == 0 && list.Slots(3) == 1;
  }

  lemma {:induction false} FarUses()
    ensures var list := FarLoad();
      list.Formed(0) && list.Formed(1) && list.Args(0) == list.Args(1) == 0 && list.Slots(0) == 3
  {
    FarLaterUses();
    var list := FarLoad();
    assert list.Formed(1) && list.Args(1) == 0 && list.Slots(1) == 3;
  }

  lemma {:induction false} FarLaterEvents()
    ensures FarLoad().Formed(2) && Events(FarLoad(), 2, 2, []) == [Def(3, Lg(1))]
  {
    var list := FarLoad();
    assert list.Formed(5) && Events(list, 5, 3, []) == [Def(3, Lg(1))];
    assert list.Formed(4) && list.Formed(3) && list.Formed(2);
    assert Events(list, 3, 3, []) == Events(list, 4, 3, []) == Events(list, 5, 3, []);
  }

  lemma {:induction false} EventsFirst(list: ActionList, p: nat, q: nat, args: seq<int>)
    requires list.Formed(p) && list.Args(p) <= |args| && !list.Last(p) && !list.Argued(p)
    ensures var next := Events(list, list.Next(p), if list.Slotted(p) then q + 1 else q, args);
      Events(list, p, q, args) == EventAt(list.words[p], q, 0) + next
  {
  }

  lemma {:induction false} FarEvents()
    ensures FarLoad().Formed(0) && FarLoad().Args(0) == 0
    ensures Events(FarLoad(), 0, 1, []) == [Ref(1, Lg(1), true), Def(3, Lg(1))]
  {
    hide Events, ActionList.Args, ActionList.Formed, ActionList.Slots;
    FarLaterEvents();
    FarUses();
    EventsFirst(FarLoad(), 0, 1, []);
    EventsFirst(FarLoad(), 1, 1, []);
  }

  lemma {:induction false} FarLaterPut(l: Links)
    requires |l.lg| >= 10
    ensures FarLoad().Formed(2) && FarLoad().Stop(2) == 6 && ListPut(FarLoad(), 2, 2, 4, [], l).0 == S_OK
  {
    var list := FarLoad();
    assert list.Formed(6) && list.Formed(5) && list.Formed(4) && list.Formed(3);
    var l2 := ActionLinks(list, 2, 2, 4, 0, l);
    var l3 := ActionLinks(list, 5, 3, 267, 0, l2);
    assert |l2.lg| >= 10 && ActionStatus(list, 5, 0, l2) == S_OK;
    hide ActionLinks, ListPut;
    ListPutNext(list, 2, 2, 4, [], l, l2, S_OK);
    ListPutNext(list, 3, 3, 259, [], l2, l2, S_OK);
    ListPutNext(list, 4, 3, 263, [], l2, l2, S_OK);
    ListPutNext(list, 5, 3, 267, [], l2, l3, S_OK);
    ListPutEnds(list, 6, 4, 267, [], l3);
  }

  /** No action of the list fails. */
  lemma {:induction false} FarPut()
    ensures FarLoad().Formed(0) && PutStatus(FarLoad(), 0, 0, 0, [], NoLinks(0, 0), 1) == S_OK
  {
    var list, l := FarLoad(), NoLinks(0, 0);
    var l0 := l.(cells := l.cells[0 := 0]);
    var l1 := ActionLinks(list, 1, 1, 4, 0, l0);
    assert |l1.lg| >= 10 && ActionStatus(list, 1, 0, l0) == S_OK;
    FarLaterPut(l1);
    assert list.Formed(1);
    hide ActionLinks, ListPut;
    ListPutNext(list, 0, 1, 0, [], l0, l0, S_OK);
    ListPutNext(list, 1, 1, 4, [], l0, l1, S_OK);
    assert list.Stop(0) == list.Stop(1) == list.Stop(2);
  }

  /** What the list puts: the load's reference asks for the label behind it. */
  lemma {:induction false} FarLoadIs()
    ensures FarLoad().Formed(0) && FarLoad().Args(0) == 0
    ensures FarLoad().Patching(0, false) && FarLoad().Items(0, 1) == FarItems()
    ensures Events(FarLoad(), 0, 1, []) == [Ref(1, Lg(1), true), Def(3, Lg(1))]
    ensures Binds(Events(FarLoad(), 0, 1, []), 0, 1)
  {
    FarItemsPut();
    FarEvents();
    hide ActionList.Patching, ActionList.Items, Events;
  }

  lemma {:induction false} FarOffsets()
    ensures var all := FarItems();
      Offset(all[..5], 0) == 264 && Masked(all) && Untouched(all[2..])
  {
    var all := FarItems();
    assert all[..5][1..] == all[1..5] && all[1..5][1..] == all[2..5];
    assert all[2..5] == [Align(255, 2), Code(NOP), Code(NOP)];
    assert Offset(all[..5], 0) == Offset(all[1..5], 4) == Offset(all[2..5], 4);
    assert all[2..5][1..] == [Code(NOP), Code(NOP)] && [Code(NOP), Code(NOP)][1..] == [Code(NOP)];
    assert Offset(all[2..5], 4) == Offset([Code(NOP), Code(NOP)], 256) == Offset([Code(NOP)], 260);
    assert [Code(NOP)][1..] == [] && Offset([Code(NOP)], 260) == 264;
  }

  lemma {:induction false} FarWordClear()
    ensures Clear(Load8, 0xe14000d0)
  {
    var w := 0xe14000d0;
    Pow2Values();
    BitsAre(w, 0, 4, 0xe14000d, 0, 0);
    BitsAre(w, 8, 4, 0xe1400, 0, 0xd0);
    BitsAre(w, 23, 1, 225, 0, 0x4000d0);
  }

  lemma {:induction false} FarPasses(cells: map<nat, int>)
    requires 1 in cells && 3 in cells && cells[1] == 3 && cells[3] == 264
    ensures AllPass(FarItems(), 0, cells)
  {
    var all := FarItems();
    assert FormOf(0x51801) == Load8;
    assert Passes(all[1], 4, cells);
    assert all[1..][1..] == all[2..];
    NoneFails(all[2..], 4, cells);
  }

  lemma {:induction false} NoneFails(items: seq<Item>, o: nat, cells: map<nat, int>)
    requires forall k :: 0 <= k < |items| ==> !items[k].Rel?
    ensures AllPass(items, o, cells)
    decreases |items|
  {
    if items != [] { NoneFails(items[1..], After(items[0], o), cells); }
  }

  /** A displacement of 256 passes the range check of pass 3, but the processor does not
      read it back. `cells` is the section buffer that pass 2 leaves. */
  lemma {:induction false} FarLoadMisses(cells: map<nat, int>)
    requires 1 in cells && 3 in cells && cells[1] == 3 && cells[3] == 264
    ensures var all := FarItems();
      AllPass(all, 0, cells) && EmitAll(all, [], cells) != [] &&
      8 + Displacement(Load8, EmitAll(all, [], cells)[0]) != 264
  {
    var all := FarItems();
    assert FormOf(0x51801) == Load8 && all[..0] == [] && Offset([], 0) == 0;
    FarOffsets();
    FarWordClear();
    FarPasses(cells);
    hide AllPass, EmitAll, Untouched, Displacement, Clear, Masked, BitOr, FormOf, Offset, Field, InRange;
    WordPoints(all, 0, cells, 3);
  }

  /** A program of one list. */
  lemma {:induction false} OneList(list: ActionList, p: nat)
    requires list.Formed(p) && list.Patching(p, false)
    ensures ListsFormed(list, [[p]]) && AllItems(list, [[p]], 0) == list.Items(p, 1)
  {
    assert [p][1..] == [] && list.AllFormed([p]);
    assert list.Blocks([p], 0) == list.Items(p, 1) + [];
    assert AllItems(list, [[p]], 1) == [];
  }

  /** What pass 2 leaves for the load and its label. */
  lemma {:induction false} FarLinked(l0: Links, l1: Links, l: Links, z: nat)
    requires l0.Ok() && l0.Marks(l1, FIRST_MARKED, FIRST_MARKED) && Linking(l1, l, FarItems(), z)
    requires l0.log == [Ref(1, Lg(1), true), Def(3, Lg(1))]
    ensures 1 in l.cells && 3 in l.cells && l.cells[1] == 3 && l.cells[3] == 264
  {
    var all := FarItems();
    FarOffsets();
    RefAfterLink(l0, l1, l, FIRST_MARKED, FIRST_MARKED, all, z, 0);
    assert Binds(l0.log, 0, 1);
    assert all[5].Label? && all[5].slot == 3;
  }

  /** dasm_init and one dasm_put of a list without arguments. */
  method PutOne(list: ActionList, maxgl: nat) returns (d: ArmState)
    requires list.Formed(0) && list.Patching(0, false) && list.Args(0) == 0 && list.Slots(0) < 0x100_0000
    ensures fresh(d) && fresh(d.t) && d.list == list && d.maxsection == 1
    ensures d.status == PutStatus(list, 0, 0, 0, [], NoLinks(maxgl, 0), 1)
    ensures d.status == S_OK ==>
      d.Valid() && d.t.View().Ok() && d.starts == [[0]] &&
      d.t.View() == Putting(list, 0, 0, 0, [], NoLinks(maxgl, 0)).1 &&
      |d.t.lglabels| == 10 + maxgl && |d.t.pclabels| == 0 && d.t.log == Events(list, 0, 1, [])
  {
    hide SecsOk, DefsPlaced, Links.Ok, Events, PutStatus, Putting, ActionList.Formed, ActionList.Patching,
      ActionList.SectionAfter, ActionList.Slots, ActionList.Args;
    d := new ArmState(list, 1, maxgl, 0);
    d.Put(0, []);
    assert [] + Events(list, 0, 1, []) == Events(list, 0, 1, []);
    if d.status == S_OK { assert d.starts[0] == [0] && d.starts == [[0]]; }
  }

  /** What passes 2 and 3 leave for the load. */
  lemma {:induction false} FarEnds(l0: Links, l1: Links, l: Links, z: nat)
    requires FarLoad().Formed(0) && ListsFormed(FarLoad(), [[0]])
    requires l0.Ok() && l0.Marks(l1, FIRST_MARKED, FIRST_MARKED)
    requires l0.log == [Ref(1, Lg(1), true), Def(3, Lg(1))]
    requires Linking(l1, l, AllItems(FarLoad(), [[0]], 0), z)
    ensures var all := AllItems(FarLoad(), [[0]], 0);
      AllPass(all, 0, l.cells) && EmitAll(all, [], l.cells) != [] &&
      8 + Displacement(Load8, EmitAll(all, [], l.cells)[0]) != 264
  {
    hide *;
    FarLoadIs();
    OneList(FarLoad(), 0);
    FarLinked(l0, l1, l, z);
    FarOffsets();
    FarLoadMisses(l.cells);
  }

  /** dasm_init to dasm_encode: the list is put, linked, and encoded without an error,
      but the load that is written does not reach its label, at offset 264. */
  method FarLoadRun() returns (st: Status, buffer: array<nat>)
    ensures st == S_OK && buffer.Length > 0 && 8 + Displacement(Load8, buffer[0]) != 264
  {
    hide SecsOk, DefsPlaced, Links.Ok, Links.Marks, Events, PutStatus, Putting, NoLinks, ActionList.Formed,
      ActionList.Patching, ActionList.Args, ActionList.Slots, Linking, ListsFormed, AllItems, Reachable, AllPass,
      Offset, EmitAll, Displacement, FarLoad, ArmState.Linked, ArmState.Valid;
    FarLoadIs();
    FarUses();
    OneList(FarLoad(), 0);
    FarPut();
    var d := PutOne(FarLoad(), 0);
    ghost var l0 := d.t.View();
    var size;
    ghost var marked;
    size, st, marked := d.Link();
    FarEnds(l0, marked, d.t.View(), SecPos(1));
    assert d.Program() == AllItems(FarLoad(), [[0]], 0);
    st, buffer := EncodeAll(d, marked);
  }

  /** The four displacements that pass the range checks and are not read back. */
  lemma {:induction false} JustTooFar(n: int)
    ensures n in {256, -256} ==> InRange(Load8, n) && Displacement(Load8, Field(Load8, n)) != n
    ensures n in {4096, -4096} ==> InRange(Load12, n) && Displacement(Load12, Field(Load12, n)) != n
  {
    if n in {256, -256} { FieldReads(Load8, n); }
    if n in {4096, -4096} { FieldReads(Load12, n); }
  }

  /** A branch to the global label with index 10, which is not defined. */
  function LostBranch(): ActionList { ActionList([0xea000000, 0x50014, 0]) }

  /** What pass 1 leaves. */
  function LostLinks(): Links {
    Links(map[0 := 0, 1 := 0], seq(20, i => if i == 10 then 1 else 0), [], [Ref(1, Lg(10), false)], map[Lg(10) := [0]])
  }

  lemma {:induction false} LostItems()
    ensures LostBranch().Formed(0) && LostBranch().Patching(0, false)
    ensures LostBranch().Args(0) == 0 && LostBranch().Slots(0) == 1
    ensures LostBranch().Items(0, 1) == [Code(0xea000000), Rel(0x50014, 1)]
    ensures Events(LostBranch(), 0, 1, []) == LostLinks().log
  {
    var list := LostBranch();
    assert list.Formed(2) && list.Formed(1) && list.Items(1, 1) == [Rel(0x50014, 1)];
  }

  /** The reference starts the chain of its label. */
  lemma {:induction false} LostReferred()
    ensures var list, l := LostBranch(), NoLinks(10, 0);
      var l0 := l.(cells := l.cells[0 := 0]);
      ActionStatus(list, 1, 0, l0) == S_OK && ActionLinks(list, 1, 1, 4, 0, l0) == LostLinks()
  {
    var list, l := LostBranch(), NoLinks(10, 0);
    var l0 := l.(cells := l.cells[0 := 0]);
    assert ActionLinks(list, 1, 1, 4, 0, l0) == l0.Chained(1, Lg(10), false);
    assert [|l0.log|] + l0.Chain(Lg(10)) == [0];
    assert l0.lg[10 := 1] == LostLinks().lg;
  }

  /** Pass 1 accepts the list. */
  lemma {:induction false} LostPut()
    ensures LostBranch().Formed(0) && PutStatus(LostBranch(), 0, 0, 0, [], NoLinks(10, 0), 1) == S_OK
    ensures Putting(LostBranch(), 0, 0, 0, [], NoLinks(10, 0)) == (S_OK, LostLinks())
  {
    hide ActionLinks, ActionStatus, ListPut, Events, NoLinks, LostLinks, ActionList.Items, ActionList.Patching;
    var list, l := LostBranch(), NoLinks(10, 0);
    LostItems();
    LostReferred();
    var l0, l1 := l.(cells := l.cells[0 := 0]), LostLinks();
    assert list.Formed(1) && list.Formed(2);
    ListPutNext(list, 0, 1, 0, [], l0, l0, S_OK);
    ListPutNext(list, 1, 1, 4, [], l0, l1, S_OK);
    ListPutEnds(list, 2, 2, 4, [], l1);
    assert list.Stop(0) == list.Stop(1) == list.Stop(2) == 2;
  }

  /** Nothing is marked by pass 2. */
  lemma {:induction false} LostCells(l1: Links, l: Links, z: nat)
    requires LostLinks().Marks(l1, FIRST_MARKED, FIRST_MARKED)
    requires Linking(l1, l, [Code(0xea000000), Rel(0x50014, 1)], z)
    ensures l.cells == map[0 := 0, 1 := 0]
  {
    var all, l0 := [Code(0xea000000), Rel(0x50014, 1)], LostLinks();
    assert l0.NotRef(0) && l0.log[0].pos == 1;
    assert !LabelIn(all, 0) && !LabelIn(all, 1);
    assert l.cells.Keys == {0, 1} && l.cells[0] == 0 && l.cells[1] == 0;
  }

  /** The program passes the checks of pass 3. */
  lemma {:induction false} LostLinked(cells: map<nat, int>)
    requires cells == map[0 := 0, 1 := 0]
    ensures var all := [Code(0xea000000), Rel(0x50014, 1)];
      AllPass(all, 0, cells) && EmitAll(all, [], cells) != [] &&
      8 + Displacement(Branch, EmitAll(all, [], cells)[0]) == 0
  {
    var all := [Code(0xea000000), Rel(0x50014, 1)];
    assert FormOf(0x50014) == Branch;
    assert all[1..] == [Rel(0x50014, 1)] && all[1..][1..] == [] && all[..0] == [] && all[2..] == [];
    assert AllPass(all, 0, cells) && Untouched(all[2..]) && Masked(all) && Offset(all[..0], 0) == 0;
    hide AllPass, EmitAll, Untouched, Masked, Offset, Displacement, BitOr;
    Pow2Values();
    BitsAre(0xea000000, 0, 24, 0xea, 0, 0);
    WordPoints(all, 0, cells, 0);
  }

  /** A reference to one of the first ten globals passes all checks even if nothing
      defines it: it is not marked, its chain ends at position 0, where the start of the
      list is taken for an offset, and the branch that is written leads there. */
  method LostBranchRun() returns (st: Status, buffer: array<nat>)
    ensures st == S_OK && buffer.Length > 0 && 8 + Displacement(Branch, buffer[0]) == 0
    ensures Pending(LostLinks().log, 0)
  {
    hide SecsOk, DefsPlaced, Links.Ok, Links.Marks, Events, PutStatus, Putting, NoLinks, ActionList.Formed,
      ActionList.Patching, ActionList.Args, ActionList.Slots, Linking, ListsFormed, AllItems, Reachable, AllPass,
      Offset, EmitAll, Displacement, LostBranch, ArmState.Linked, ArmState.Valid;
    LostItems();
    OneList(LostBranch(), 0);
    LostPut();
    var d := PutOne(LostBranch(), 10);
    var size;
    ghost var marked;
    size, st, marked := d.Link();
    LostCells(marked, d.t.View(), SecPos(1));
    LostLinked(d.t.cells);
    st, buffer := EncodeAll(d, marked);
  }
}
