/** The bytes that pass 3 of dasm_x86.h writes: for each item, those that it stands for,
    at its true offset. A short branch also replaces its opcode. */
module DynasmX86Encode {
  import opened DynasmLabels
  import opened DynasmX86
  import opened DynasmX86Passes
  import opened Numbers

  const NOP: nat := 0x90

  /** What pass 3 reads: the address of the program, the linked cells, and the addresses
      of global labels. */
  datatype World = World(base: int, cells: map<nat, int>, globals: seq<int>)

  /** A reference holds a position, that of its label if it is defined, or the marker of a
      global. */
  predicate RefOk(x: Item, w: World) {
    x.Rel? || x.Addr? ==>
      x.slot in w.cells &&
      if w.cells[x.slot] < 0 then -w.cells[x.slot] < |w.globals| else AtLabel(w.cells[x.slot], w.cells)
  }

  predicate AtLabel(v: nat, cells: map<nat, int>) { v in cells }

  /** How far it is to the label from offset `z`. */
  function BranchValue(x: Item, z: nat, w: World): int
    requires x.Rel? && RefOk(x, w)
  {
    var v := w.cells[x.slot];
    if v < 0 then w.globals[-v] - (w.base + z) else w.cells[v] - z
  }

  function AddressValue(x: Item, w: World): int
    requires x.Addr? && RefOk(x, w)
  {
    var v := w.cells[x.slot];
    if v < 0 then w.globals[-v] else w.cells[v] + w.base
  }

  /** The bytes of an item from offset `a` to offset `z`; those of a short branch start
      with its opcode. */
  function Text(x: Item, f: nat, a: nat, z: nat, w: World): seq<nat>
    requires RefOk(x, w)
  {
    match x
    case Byte(b) => [b]
    case Value(size, n) => LittleEndian(n, size)
    case Absolute(n) => LittleEndian(n - (w.base + z), 4)
    case Space(fill, n) => Repeat(fill, n)
    case Align(_, _) => Repeat(NOP, if z < a then 0 else z - a)
    case Here(_, _) => []
    case Addr(_) => LittleEndian(AddressValue(x, w), 4)
    case Rel(op, _) =>
      if f == 0 then LittleEndian(BranchValue(x, z, w), 4)
      else [if f == 3 then 0xeb else (op - 0x10) % 256] + LittleEndian(BranchValue(x, z, w), 1)
  }

  /** How many bytes of its opcode a short branch replaces. */
  function Back(f: nat): nat { if f == 3 then 1 else if f == 4 then 2 else 0 }

  // ----- offsets -----

  function Ofs(all: seq<Item>, fs: seq<nat>, k: nat): nat
    requires Flags(all, fs) && k <= |all|
  {
    FlagsUpTo(all, fs, k);
    Offset(all[..k], fs[..k])
  }

  lemma {:induction false} OfsMonotone(all: seq<Item>, fs: seq<nat>, j: nat, k: nat)
    requires Flags(all, fs) && j <= k <= |all|
    ensures Ofs(all, fs, j) <= Ofs(all, fs, k)
  {
    Distance(all, fs, j, k);
  }

  lemma {:induction false} OfsNext(all: seq<Item>, fs: seq<nat>, k: nat)
    requires Flags(all, fs) && k < |all|
    ensures Ofs(all, fs, k + 1) == After(all[k], fs[k], Ofs(all, fs, k)) >= 0
  {
    OffsetNext(all, fs, k);
  }

  /** The opcode of a short branch stands right in front of it. */
  lemma {:induction false} OpcodeAt(all: seq<Item>, fs: seq<nat>, n: nat)
    requires Flags(all, fs) && Led(all) && n < |all|
    ensures all[n].Rel? && fs[n] != 0 ==>
      n >= Back(fs[n]) && Ofs(all, fs, n) == Ofs(all, fs, n - Back(fs[n])) + Back(fs[n]) &&
      (fs[n] == 3 || fs[n] == 4) &&
      all[n - 1] == Byte(all[n].op) && all[n - 1].Byte? && (fs[n] == 4 ==> all[n - 2].Byte? && all[n].op >= 0x80)
    ensures !all[n].Rel? ==> fs[n] == 0
  {
    assert Flag(all[n], fs[n]) && all[n] == all[n];
    if all[n].Rel? && fs[n] != 0 {
      OfsNext(all, fs, n - 1);
      if fs[n] == 4 { OfsNext(all, fs, n - 2); }
    }
  }

  // ----- what is written -----

  /** The byte of item `k` is replaced by a short branch among the first `n` items. */
  predicate Replaced(all: seq<Item>, fs: seq<nat>, k: nat, n: nat)
    requires |fs| == |all| && n <= |all|
  {
    (k + 1 < n && all[k + 1].Rel? && Back(fs[k + 1]) >= 1) || (k + 2 < n && all[k + 2].Rel? && Back(fs[k + 2]) >= 2)
  }

  /** The bytes of item `k` are in their place. */
  ghost predicate TextAt(all: seq<Item>, fs: seq<nat>, out: seq<nat>, w: World, k: nat)
    requires Flags(all, fs) && k < |all|
  {
    var z := Ofs(all, fs, k + 1);
    RefOk(all[k], w) &&
    var text := Text(all[k], fs[k], Ofs(all, fs, k), z, w);
    |text| <= z <= |out| && out[z - |text|..z] == text
  }

  /** The first `n` items are written. */
  ghost predicate Emitted(all: seq<Item>, fs: seq<nat>, out: seq<nat>, w: World, n: nat)
    requires Flags(all, fs)
  {
    n <= |all| && |out| == Ofs(all, fs, n) &&
    forall k: nat {:trigger TextAt(all, fs, out, w, k)} :: k < n && !Replaced(all, fs, k, n) ==>
      TextAt(all, fs, out, w, k)
  }

  /** What is in front of `p` in both stays in its place. */
  lemma {:induction false} TextKept(all: seq<Item>, fs: seq<nat>, out: seq<nat>, out': seq<nat>, w: World, k: nat,
                                    p: nat)
    requires Flags(all, fs) && k < |all| && TextAt(all, fs, out, w, k) && Ofs(all, fs, k + 1) <= p <= |out|
    requires p <= |out'| && out'[..p] == out[..p]
    ensures TextAt(all, fs, out', w, k)
  {
    hide Ofs, Text, RefOk;
    var z, a := Ofs(all, fs, k + 1), Ofs(all, fs, k);
    var text := Text(all[k], fs[k], a, z, w);
    assert out'[z - |text|..z] == out'[..p][z - |text|..z] == out[..p][z - |text|..z] == out[z - |text|..z];
  }

  function Emit(x: Item, f: nat, out: seq<nat>, z: nat, w: World): seq<nat>
    requires RefOk(x, w) && Back(f) <= |out|
  {
    out[..|out| - Back(f)] + Text(x, f, |out|, z, w)
  }

  lemma {:induction false} TextLength(x: Item, f: nat, a: nat, z: nat, w: World)
    requires RefOk(x, w) && Flag(x, f) && z == After(x, f, a)
    ensures |Text(x, f, a, z, w)| == z - a + Back(f)
  {
    AlignUpBounds(a, MaxSize(x));
  }

  /** One more item. */
  lemma {:induction false} EmittedNext(all: seq<Item>, fs: seq<nat>, out: seq<nat>, w: World, n: nat)
    requires Flags(all, fs) && Led(all) && Emitted(all, fs, out, w, n) && n < |all| && RefOk(all[n], w)
    ensures Back(fs[n]) <= |out| && Emitted(all, fs, Emit(all[n], fs[n], out, Ofs(all, fs, n + 1), w), w, n + 1)
  {
    OpcodeAt(all, fs, n);
    OfsNext(all, fs, n);
    assert Flag(all[n], fs[n]);
    var f, z := fs[n], Ofs(all, fs, n + 1);
    TextLength(all[n], f, |out|, z, w);
    hide Ofs, Text, RefOk, TextAt, Led, After, Replaced, Flags, Flag;
    var out' := Emit(all[n], f, out, z, w);
    forall k: nat {:trigger TextAt(all, fs, out', w, k)} | k < n + 1 && !Replaced(all, fs, k, n + 1)
      ensures TextAt(all, fs, out', w, k)
    {
      if k < n { OldText(all, fs, out, w, n, k); } else { LastText(all, fs, out, w, n); }
    }
  }

  /** The bytes of an earlier item stay, unless they are replaced. */
  lemma {:induction false} OldText(all: seq<Item>, fs: seq<nat>, out: seq<nat>, w: World, n: nat, k: nat)
    requires Flags(all, fs) && Led(all) && Emitted(all, fs, out, w, n) && k < n < |all| && RefOk(all[n], w)
    requires Back(fs[n]) <= |out| && !Replaced(all, fs, k, n + 1)
    ensures TextAt(all, fs, Emit(all[n], fs[n], out, Ofs(all, fs, n + 1), w), w, k)
  {
    OpcodeAt(all, fs, n);
    hide Ofs, Text, RefOk, TextAt, Led;
    var out', p := Emit(all[n], fs[n], out, Ofs(all, fs, n + 1), w), |out| - Back(fs[n]);
    assert out'[..p] == out[..p];
    assert !Replaced(all, fs, k, n) && TextAt(all, fs, out, w, k);
    OfsMonotone(all, fs, k + 1, n - Back(fs[n]));
    hide Emit;
    TextKept(all, fs, out, out', w, k, p);
  }

  lemma {:induction false} LastText(all: seq<Item>, fs: seq<nat>, out: seq<nat>, w: World, n: nat)
    requires Flags(all, fs) && n < |all| && RefOk(all[n], w) && Flag(all[n], fs[n]) &&
      Back(fs[n]) <= |out| == Ofs(all, fs, n)
    ensures TextAt(all, fs, Emit(all[n], fs[n], out, Ofs(all, fs, n + 1), w), w, n)
  {
    OfsNext(all, fs, n);
    TextLength(all[n], fs[n], |out|, Ofs(all, fs, n + 1), w);
    hide Ofs, Text;
    var out', z := Emit(all[n], fs[n], out, Ofs(all, fs, n + 1), w), Ofs(all, fs, n + 1);
    assert out'[|out| - Back(fs[n])..] == Text(all[n], fs[n], |out|, z, w);
  }

  // ----- what branches do -----

  lemma {:induction false} BranchStays(all: seq<Item>, fs: seq<nat>, k: nat)
    requires Flags(all, fs) && Led(all) && k < |all| && all[k].Rel?
    ensures !Replaced(all, fs, k, |all|)
  {
    if k + 1 < |all| { OpcodeAt(all, fs, k + 1); }
    if k + 2 < |all| { OpcodeAt(all, fs, k + 2); }
  }

  /** What the processor adds to the address behind the branch leads to the label: with one
      byte and the short opcode, if it was shrunk, and with four bytes otherwise. */
  lemma {:induction false} BranchWorks(all: seq<Item>, fs: seq<nat>, out: seq<nat>, w: World, k: nat, m: nat)
    requires Flags(all, fs) && Led(all) && Emitted(all, fs, out, w, |all|) && k < |all| && m < |all| && all[k].Rel?
    requires all[m].Here? && all[k].slot in w.cells && w.cells[all[k].slot] == all[m].slot
    requires all[m].slot in w.cells && w.cells[all[m].slot] == Ofs(all, fs, m)
    requires var d := Ofs(all, fs, m) - Ofs(all, fs, k + 1);
      if fs[k] != 0 then -128 <= d <= 127 else -0x8000_0000 <= d < 0x8000_0000
    ensures var z := Ofs(all, fs, k + 1);
      z <= |out| &&
      if fs[k] == 0 then z >= 4 && z + Signed(out[z - 4..z]) == Ofs(all, fs, m)
      else
        z >= 2 && z + Signed(out[z - 1..z]) == Ofs(all, fs, m) &&
        out[z - 2] == if all[k].op == 0xe9 then 0xeb else (all[k].op - 0x10) % 256
  {
    BranchStays(all, fs, k);
    OpcodeAt(all, fs, k);
    assert Flag(all[k], fs[k]);
    assert TextAt(all, fs, out, w, k);
    hide Ofs, Emitted, Led, Flags;
    BytesRead(all[k], fs[k], out, Ofs(all, fs, k), Ofs(all, fs, k + 1), w, Ofs(all, fs, m) - Ofs(all, fs, k + 1));
  }

  /** The bytes of a branch as a number, and the opcode of a short one. */
  lemma {:induction false} BytesRead(x: Item, f: nat, out: seq<nat>, a: nat, z: nat, w: World, d: int)
    requires x.Rel? && RefOk(x, w) && d == BranchValue(x, z, w) && (f == 0 || (f == Shrink(x.op) && (f == 3 || f == 4)))
    requires var text := Text(x, f, a, z, w); |text| <= z <= |out| && out[z - |text|..z] == text
    requires if f != 0 then -128 <= d <= 127 else -0x8000_0000 <= d < 0x8000_0000
    ensures if f == 0 then z >= 4 && Signed(out[z - 4..z]) == d
      else z >= 2 && Signed(out[z - 1..z]) == d && out[z - 2] == if x.op == 0xe9 then 0xeb else (x.op - 0x10) % 256
  {
    Powers();
    if f == 0 {
      ReadsBack(d, 4);
    } else {
      ReadsBack(d, 1);
      var text := Text(x, f, a, z, w);
      assert text[1..] == LittleEndian(d, 1);
      hide LittleEndian, Signed;
      assert out[z - 2..z] == text;
      assert out[z - 1..z] == out[z - 2..z][1..] && out[z - 2] == out[z - 2..z][0];
    }
  }

  lemma {:induction false} Powers()
    ensures Pow256(1) == 256 && Pow256(4) == 0x1_0000_0000
  {
    assert Pow256(2) == 256 * Pow256(1) && Pow256(3) == 256 * Pow256(2) && Pow256(4) == 256 * Pow256(3);
  }

  // ----- global labels -----

  /** No global that is marked as undefined is a label of the program. */
  ghost predicate Separate(all: seq<Item>, cells: map<nat, int>) {
    forall k, m {:trigger all[k], all[m]} ::
      0 <= k < |all| && 0 <= m < |all| && (all[k].Rel? || all[k].Addr?) && all[m].Here? ==>
      all[k].slot in cells && (all[m].tag.Lg? && cells[all[k].slot] < 0 ==> cells[all[k].slot] != Neg(all[m].tag.idx))
  }

  ghost predicate AllRefsOk(all: seq<Item>, w: World) {
    forall k {:trigger all[k]} :: 0 <= k < |all| ==> RefOk(all[k], w)
  }

  predicate Last(all: seq<Item>, m: nat, n: nat)
    requires m < n <= |all|
  {
    forall k {:trigger all[k]} :: m < k < n && all[k].Here? ==> !all[m].Here? || all[k].tag != all[m].tag
  }

  /** The latest definitions of global labels among the first `n` items have their
      addresses in `now`; all else is as it was. */
  ghost predicate Exported(all: seq<Item>, fs: seq<nat>, base: int, was: seq<int>, now: seq<int>, n: nat)
    requires Flags(all, fs)
  {
    n <= |all| && |now| == |was| &&
    (forall m: nat {:trigger all[m]} ::
      m < n && all[m].Here? && all[m].tag.Lg? && 10 <= all[m].tag.idx < |now| && Last(all, m, n) ==>
      now[all[m].tag.idx] == base + Ofs(all, fs, m)) &&
    forall i :: 0 <= i < |now| && now[i] != was[i] ==> exists m :: 0 <= m < n && all[m].Here? && all[m].tag == Lg(i)
  }

  lemma {:induction false} ExportedNext(all: seq<Item>, fs: seq<nat>, base: int, was: seq<int>, now: seq<int>, n: nat)
    requires Flags(all, fs) && Exported(all, fs, base, was, now, n) && n < |all|
    ensures var x := all[n];
      Exported(all, fs, base, was,
               if x.Here? && x.tag.Lg? && 10 <= x.tag.idx < |now| then now[x.tag.idx := base + Ofs(all, fs, n)]
                 else now, n + 1)
  {
    hide Ofs;
    var x := all[n];
    var now' := if x.Here? && x.tag.Lg? && 10 <= x.tag.idx < |now| then now[x.tag.idx := base + Ofs(all, fs, n)]
      else now;
    forall m: nat {:trigger all[m]} |
      m < n + 1 && all[m].Here? && all[m].tag.Lg? && 10 <= all[m].tag.idx < |now'| && Last(all, m, n + 1)
      ensures now'[all[m].tag.idx] == base + Ofs(all, fs, m)
    {
      if m < n {
        assert Last(all, m, n);
        assert all[n] == x;
      }
    }
    forall i | 0 <= i < |now'| && now'[i] != was[i]
      ensures exists m :: 0 <= m < n + 1 && all[m].Here? && all[m].tag == Lg(i)
    {
      if now'[i] != now[i] {
        assert all[n].Here? && all[n].tag == Lg(i);
      } else {
        var m :| 0 <= m < n && all[m].Here? && all[m].tag == Lg(i);
      }
    }
  }

  /** A marked global still has the address that the caller provided. */
  lemma {:induction false} MarkedKept(all: seq<Item>, fs: seq<nat>, w: World, now: seq<int>, n: nat, k: nat)
    requires Flags(all, fs) && Exported(all, fs, w.base, w.globals, now, n) && Separate(all, w.cells) && k < |all|
    requires (all[k].Rel? || all[k].Addr?) && RefOk(all[k], w) && w.cells[all[k].slot] < 0
    ensures now[-w.cells[all[k].slot]] == w.globals[-w.cells[all[k].slot]]
  {
    var i := -w.cells[all[k].slot];
    if now[i] != w.globals[i] {
      var m :| 0 <= m < n && all[m].Here? && all[m].tag == Lg(i);
      assert all[k] == all[k] && all[m] == all[m];
    }
  }

  // ----- padding -----

  /** On the way to the next aligned offset. */
  lemma {:induction false} PadNext(o: nat, m: nat)
    ensures if Aligned(o, m) then AlignUp(o, m) == o else AlignUp(o, m) == AlignUp(o + 1, m) >= o + 1
  {
    var d := m + 1;
    var q, r := o / d, o % d;
    assert o == q * d + r && (q + 1) * d == q * d + d;
    if r == 0 {
      DivIs(o + m, d, q, m);
    } else {
      DivIs(o + m, d, q + 1, r - 1);
      DivIs(o + 1 + m, d, q + 1, r);
    }
  }

  lemma {:induction false} RepeatMore(b: nat, n: nat)
    ensures Repeat(b, n + 1) == Repeat(b, n) + [b]
  {
  }

  // ----- opcodes -----

  lemma {:induction false} LedAppend(a: seq<Item>, b: seq<Item>)
    requires Led(a) && Led(b)
    ensures Led(a + b)
  {
    var c := a + b;
    forall k {:trigger c[k]} | 0 <= k < |c| && c[k].Rel?
      ensures k > 0 && c[k - 1] == Byte(c[k].op) && (Shrink(c[k].op) == 4 ==> k > 1 && c[k - 2] == Byte(0x0f))
    {
      if k < |a| { assert c[k] == a[k]; } else { assert c[k] == b[k - |a|]; }
    }
  }

  lemma {:induction false} AllLed(code: seq<seq<Item>>, s: nat)
    requires s <= |code| && forall i {:trigger code[i]} :: 0 <= i < |code| ==> Led(code[i])
    ensures Led(Upto(code, s))
  {
    if s > 0 {
      AllLed(code, s - 1);
      assert Led(code[s - 1]);
      LedAppend(Upto(code, s - 1), code[s - 1]);
    }
  }

  /** The opcode is what pass 3 wrote last. */
  lemma {:induction false} OpcodeWritten(all: seq<Item>, fs: seq<nat>, out: seq<nat>, w: World, n: nat)
    requires Flags(all, fs) && Led(all) && Emitted(all, fs, out, w, n) && n < |all| && all[n].Rel?
    ensures |out| > 0 && out[|out| - 1] == all[n].op && Back(fs[n]) <= |out|
  {
    OpcodeAt(all, fs, n);
    assert all[n] == all[n];
    assert !Replaced(all, fs, n - 1, n);
    assert TextAt(all, fs, out, w, n - 1);
    assert all[n - 1] == Byte(all[n].op);
    assert out[|out| - 1..|out|][0] == all[n].op;
  }

  // ----- what pass 2 leaves for pass 3 -----

  /** An undefined global is a label of no item. */
  lemma {:induction false} NotHere(code: seq<seq<Item>>, pos: seq<nat>, ofs: seq<nat>, l0: Links, l1: Links, i: nat,
                                   m: nat)
    requires l0.Ok() && SecsOk(code, pos, ofs, l1) && l1.log == l0.log && Pending(l0.log, i) && l0.log[i].tag.Lg? &&
      !Local(l0.log[i].tag)
    requires m < |All(code)| && All(code)[m].Here?
    ensures All(code)[m].tag != l0.log[i].tag
  {
    var t, j := Locate(code, |code|, m);
    IndexIs(code, t, j);
    FilledAt(code, pos, ofs, l1, t, j);
    var d :| 0 <= d < |l1.log| && l1.log[d] == Def(All(code)[m].slot, All(code)[m].tag);
    assert l0.EventOk(i) && l0.log[d] == l0.log[d];
  }

  /** What a reference holds after pass 2. */
  lemma {:induction false} RefReady(code: seq<seq<Item>>, pos: seq<nat>, ofs: seq<nat>, l0: Links, l1: Links, l: Links,
                                    fs: seq<nat>, q: nat, from: nat, k: nat, w: World)
    requires l0.Ok() && l0.Marks(l1, from, |l0.lg|) && DefsPlaced(code, l0.log) && 10 <= from <= |l0.lg| == |w.globals|
    requires l0.log == [] || 0 in l0.cells
    requires SecsOk(code, pos, ofs, l1) && Linked(code, l1, l, fs, q) && w.cells == l.cells
    requires k < |All(code)| && (All(code)[k].Rel? || All(code)[k].Addr?)
    ensures RefOk(All(code)[k], w)
    ensures l.cells[All(code)[k].slot] < 0 ==>
      forall m {:trigger All(code)[m]} :: 0 <= m < |All(code)| && All(code)[m].Here? && All(code)[m].tag.Lg? ==>
        l.cells[All(code)[k].slot] != Neg(All(code)[m].tag.idx)
  {
    var all := All(code);
    RefKept(code, pos, ofs, l1, l, fs, q, k);
    var i := RefEvent(code, pos, ofs, l1, k);
    RefAimed(code, l0, l1, from, |l0.lg|, i);
    assert l0.EventOk(i);
    if Pending(l0.log, i) {
      forall m {:trigger all[m]} | 0 <= m < |all| && all[m].Here? && all[m].tag.Lg? && l.cells[all[k].slot] < 0
        ensures l.cells[all[k].slot] != Neg(all[m].tag.idx)
      {
        NotHere(code, pos, ofs, l0, l1, i, m);
      }
    } else {
      var j: nat, t :| Binds(l0.log, i, j) && l1.cells[all[k].slot] == l0.log[j].pos &&
        Target(all, l1.cells[all[k].slot], t);
      assert l0.EventOk(j);
      LabelCell2(code, pos, ofs, l1, t);
    }
  }

  lemma {:induction false} LabelCell2(code: seq<seq<Item>>, pos: seq<nat>, ofs: seq<nat>, l1: Links, m: int)
    requires SecsOk(code, pos, ofs, l1) && 0 <= m < |All(code)| && All(code)[m].Here?
    ensures All(code)[m].slot in l1.cells
  {
    var t, j := LabelCell(code, pos, ofs, l1, m);
  }

  /** The reference of an item. */
  lemma {:induction false} RefEvent(code: seq<seq<Item>>, pos: seq<nat>, ofs: seq<nat>, l1: Links, k: nat)
    returns (i: nat)
    requires SecsOk(code, pos, ofs, l1) && k < |All(code)| && (All(code)[k].Rel? || All(code)[k].Addr?)
    ensures i < |l1.log| && l1.log[i].Ref? && l1.log[i].pos == All(code)[k].slot
  {
    var t, j := Locate(code, |code|, k);
    IndexIs(code, t, j);
    FilledAt(code, pos, ofs, l1, t, j);
    i :| 0 <= i < |l1.log| && l1.log[i].Ref? && l1.log[i].pos == All(code)[k].slot;
  }

  /** What pass 3 needs of the program that pass 2 has linked. */
  ghost predicate Ready(all: seq<Item>, fs: seq<nat>, w: World) {
    Flags(all, fs) && AllRefsOk(all, w) && Separate(all, w.cells) && Led(all) &&
    forall k: nat {:trigger ReadyAt(all, fs, w, k)} :: k < |all| ==> ReadyAt(all, fs, w, k)
  }

  /** Labels hold their offsets, branches how much they are shrunk; only those to labels
      of the program are. */
  predicate ReadyAt(all: seq<Item>, fs: seq<nat>, w: World, k: nat)
    requires Flags(all, fs) && k < |all|
  {
    (all[k].Here? ==> all[k].slot in w.cells && w.cells[all[k].slot] == Ofs(all, fs, k)) &&
    (all[k].Align? ==> Mask(all[k].mask)) &&
    (all[k].Rel? ==>
      all[k].slot in w.cells && all[k].slot + 1 in w.cells && w.cells[all[k].slot + 1] == fs[k] &&
      (w.cells[all[k].slot] < 0 ==> fs[k] == 0))
  }

  lemma {:induction false} LinkedReadyAt(code: seq<seq<Item>>, pos: seq<nat>, ofs: seq<nat>, l1: Links, l: Links,
                                         fs: seq<nat>, q: nat, w: World, k: nat)
    requires SecsOk(code, pos, ofs, l1) && Linked(code, l1, l, fs, q) && w.cells == l.cells && Flags(All(code), fs) &&
      k < |All(code)|
    requires All(code)[k].Align? ==> Mask(All(code)[k].mask)
    ensures ReadyAt(All(code), fs, w, k)
  {
    var all := All(code);
    FlagsUpTo(all, fs, k);
    assert ToldAt(all, fs, l.cells, k) && NearAt(all, fs, l1.cells, k);
    if all[k].Rel? { RefKept(code, pos, ofs, l1, l, fs, q, k); }
  }

  lemma {:induction false} LinkedReady(code: seq<seq<Item>>, pos: seq<nat>, ofs: seq<nat>, l0: Links, l1: Links,
                                       l: Links, fs: seq<nat>, q: nat, from: nat, w: World)
    requires l0.Ok() && l0.Marks(l1, from, |l0.lg|) && DefsPlaced(code, l0.log) && 10 <= from <= |l0.lg| == |w.globals|
    requires l0.log == [] || 0 in l0.cells
    requires SecsOk(code, pos, ofs, l1) && Linked(code, l1, l, fs, q) && w.cells == l.cells && Flags(All(code), fs)
    requires Led(All(code)) && forall k {:trigger All(code)[k]} :: 0 <= k < |All(code)| && All(code)[k].Align? ==>
      Mask(All(code)[k].mask)
    ensures Ready(All(code), fs, w)
  {
    var all := All(code);
    forall k: nat {:trigger ReadyAt(all, fs, w, k)} | k < |all| ensures ReadyAt(all, fs, w, k) {
      LinkedReadyAt(code, pos, ofs, l1, l, fs, q, w, k);
    }
    forall k {:trigger all[k]} | 0 <= k < |all| ensures RefOk(all[k], w) {
      if all[k].Rel? || all[k].Addr? { RefReady(code, pos, ofs, l0, l1, l, fs, q, from, k, w); }
    }
    forall k, m {:trigger all[k], all[m]} | 0 <= k < |all| && 0 <= m < |all| && (all[k].Rel? || all[k].Addr?) &&
      all[m].Here?
      ensures all[k].slot in w.cells &&
        (all[m].tag.Lg? && w.cells[all[k].slot] < 0 ==> w.cells[all[k].slot] != Neg(all[m].tag.idx))
    {
      RefReady(code, pos, ofs, l0, l1, l, fs, q, from, k, w);
    }
  }

  // ----- the result -----

  /** The bytes of the branch at `k` lead to offset `o`. */
  ghost predicate LeadsTo(all: seq<Item>, fs: seq<nat>, out: seq<nat>, k: nat, o: nat)
    requires Flags(all, fs) && k < |all| && all[k].Rel?
  {
    var z := Ofs(all, fs, k + 1);
    z <= |out| &&
    if fs[k] == 0 then z >= 4 && z + Signed(out[z - 4..z]) == o
    else
      z >= 2 && z + Signed(out[z - 1..z]) == o &&
      out[z - 2] == if all[k].op == 0xe9 then 0xeb else (all[k].op - 0x10) % 256
  }

  /** In a program of less than 2^31 bytes every branch, short or not, leads to the
      definition that its reference asks for, wherever the two are, and whatever has
      shrunk in between. */
  lemma {:induction false} ReferenceReaches(code: seq<seq<Item>>, pos: seq<nat>, ofs: seq<nat>, l0: Links, l1: Links,
                                            l: Links,
                                            fs: seq<nat>, q: nat, from: nat, out: seq<nat>, w: World, k: nat, i: nat,
                                            j: nat)
    returns (m: nat)
    requires l0.Ok() && l0.Marks(l1, from, |l0.lg|) && DefsPlaced(code, l0.log) && Binds(l0.log, i, j)
    requires SecsOk(code, pos, ofs, l1) && Linked(code, l1, l, fs, q) && w.cells == l.cells && Ready(All(code), fs, w)
    requires Emitted(All(code), fs, out, w, |All(code)|) && |out| < 0x8000_0000
    requires k < |All(code)| && All(code)[k].Rel? && All(code)[k].slot == l0.log[i].pos
    ensures m < |All(code)| && All(code)[m] == Here(l0.log[j].tag, l0.log[j].pos)
    ensures Flags(All(code), fs) && LeadsTo(All(code), fs, out, k, Ofs(All(code), fs, m))
  {
    hide SecsOk, Linking, Aimed, Links.Ok, Links.Marks, DefsPlaced, Binds, Emitted, Ofs, All, Separate, AllRefsOk, Led;
    var all := All(code);
    m := BoundLabel(code, l0, l1, from, i, j);
    RefKept(code, pos, ofs, l1, l, fs, q, k);
    assert ReadyAt(all, fs, w, m);
    if fs[k] != 0 {
      assert Target(all, l1.cells[all[k].slot], m);
      var t := ShortBranch(code, pos, ofs, l1, l, fs, q, k);
      assert ReadyAt(all, fs, w, t);
      Distances(all, fs, k, t);
    }
    Distances(all, fs, k, m);
    ReadyMeans(all, fs, w);
    hide Linked, Ready;
    ProgramEnds(all, fs, out, w);
    BranchWorks(all, fs, out, w, k, m);
  }

  lemma {:induction false} ReadyMeans(all: seq<Item>, fs: seq<nat>, w: World)
    requires Ready(all, fs, w)
    ensures Flags(all, fs) && Led(all)
  {
  }

  lemma {:induction false} ProgramEnds(all: seq<Item>, fs: seq<nat>, out: seq<nat>, w: World)
    requires Flags(all, fs) && Emitted(all, fs, out, w, |all|)
    ensures |out| == Ofs(all, fs, |all|)
  {
  }

  lemma {:induction false} Distances(all: seq<Item>, fs: seq<nat>, k: nat, m: nat)
    requires Flags(all, fs) && k < |all| && m < |all|
    ensures Ofs(all, fs, k + 1) <= Ofs(all, fs, |all|) && Ofs(all, fs, m) <= Ofs(all, fs, |all|)
    ensures Displacement(all, fs, k, m) == Ofs(all, fs, m) - Ofs(all, fs, k + 1)
  {
    OfsMonotone(all, fs, k + 1, |all|);
    OfsMonotone(all, fs, m, |all|);
  }

  /** The label that a reference is bound to, and that its cell names. */
  lemma {:induction false} BoundLabel(code: seq<seq<Item>>, l0: Links, l1: Links, from: nat, i: nat, j: nat)
    returns (m: nat)
    requires l0.Ok() && l0.Marks(l1, from, |l0.lg|) && DefsPlaced(code, l0.log) && Binds(l0.log, i, j)
    ensures m < |All(code)| && All(code)[m] == Here(l0.log[j].tag, l0.log[j].pos)
    ensures l0.log[i].pos in l1.cells && l1.cells[l0.log[i].pos] == l0.log[j].pos
  {
    m := DefTarget(code, l0.log, j);
    assert l0.EventOk(i);
    if Pending(l0.log, i) { PendingUnbound(l0.log, i, j); }
    var d: nat :| Binds(l0.log, i, d) && l0.cells[l0.log[i].pos] == l0.log[d].pos;
    BindsOnce(l0.log, i, j, d);
  }
}
