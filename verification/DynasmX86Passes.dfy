/** What passes 2 and 3 of dasm_x86.h keep, over the items of all sections. */
module DynasmX86Passes {
  import opened DynasmLabels
  import opened DynasmX86

  // ----- all sections -----

  /** The items of the first `s` sections. */
  function Upto(code: seq<seq<Item>>, s: nat): seq<Item>
    requires s <= |code|
  {
    if s == 0 then [] else Upto(code, s - 1) + code[s - 1]
  }

  function All(code: seq<seq<Item>>): seq<Item> { Upto(code, |code|) }

  /** The estimated size of the first `s` sections. */
  function Base(code: seq<seq<Item>>, s: nat): nat
    requires s <= |code|
  {
    Estimate(Upto(code, s))
  }

  lemma {:induction false} BaseNext(code: seq<seq<Item>>, s: nat)
    requires s < |code|
    ensures Base(code, s + 1) == Base(code, s) + Estimate(code[s])
  {
    EstimateAppend(Upto(code, s), code[s]);
  }

  lemma {:induction false} UptoAll(code: seq<seq<Item>>, s: nat)
    requires s <= |code|
    ensures Upto(code, s) <= All(code)
    decreases |code| - s
  {
    if s < |code| { UptoAll(code, s + 1); }
  }

  /** Item `i` of section `s`, among all. */
  function Index(code: seq<seq<Item>>, s: nat, i: nat): nat
    requires s <= |code|
  {
    |Upto(code, s)| + i
  }

  lemma {:induction false} IndexIs(code: seq<seq<Item>>, s: nat, i: nat)
    requires s < |code| && i <= |code[s]|
    ensures Index(code, s, i) <= |All(code)| && All(code)[..Index(code, s, i)] == Upto(code, s) + code[s][..i]
    ensures Estimate(All(code)[..Index(code, s, i)]) == Base(code, s) + Estimate(code[s][..i])
    ensures i < |code[s]| ==> Index(code, s, i) < |All(code)| && All(code)[Index(code, s, i)] == code[s][i]
  {
    UptoAll(code, s + 1);
    EstimateAppend(Upto(code, s), code[s][..i]);
    assert Upto(code, s + 1) == Upto(code, s) + code[s];
    assert Upto(code, s + 1)[..Index(code, s, i)] == Upto(code, s) + code[s][..i];
  }

  // ----- labels of references -----

  predicate Target(all: seq<Item>, v: int, m: int) { 0 <= m < |all| && all[m].Here? && all[m].slot == v }

  ghost predicate Targeted(all: seq<Item>, v: int) { exists m :: Target(all, v, m) }

  /** Every reference holds a marker, or a position that is used. */
  ghost predicate Aimed(all: seq<Item>, cells: map<nat, int>) {
    forall k {:trigger all[k]} :: 0 <= k < |all| && (all[k].Rel? || all[k].Addr?) ==>
      all[k].slot in cells && (cells[all[k].slot] < 0 || cells[all[k].slot] in cells)
  }

  // ----- pass 2 -----

  /** The true offset in front of item `k`; `fs` says how much the branches up to there
      are shrunk. */
  function At(all: seq<Item>, fs: seq<nat>, k: nat): int {
    if k <= |fs| <= |all| && Flags(all[..k], fs[..k]) then Offset(all[..k], fs[..k]) else 0
  }

  /** Labels hold their offset, and branches how much they are shrunk. */
  predicate ToldAt(all: seq<Item>, fs: seq<nat>, cells: map<nat, int>, k: nat)
    requires k < |fs| <= |all|
  {
    (all[k].Here? ==> all[k].slot in cells && cells[all[k].slot] == At(all, fs, k)) &&
    (all[k].Rel? ==> all[k].slot + 1 in cells && cells[all[k].slot + 1] == fs[k])
  }

  /** A branch that is short was found to be near its label, if it has one. */
  ghost predicate NearAt(all: seq<Item>, fs: seq<nat>, cells: map<nat, int>, k: nat)
    requires k < |fs| <= |all|
  {
    all[k].Rel? && fs[k] != 0 ==>
      all[k].slot in cells && cells[all[k].slot] >= 0 &&
      (Targeted(all, cells[all[k].slot]) ==>
         exists m :: Target(all, cells[all[k].slot], m) && CloseTo(all, fs, k, m))
  }

  predicate CloseTo(all: seq<Item>, fs: seq<nat>, k: nat, m: int)
    requires k < |fs| <= |all|
  {
    0 <= m < |all| && m != k &&
    if m > k then Estimate(all[..m]) - Estimate(all[..k + 1]) <= 127 else At(all, fs, m) - At(all, fs, k + 1) >= -128
  }

  /** Pass 2 is through the first items of `all`, up to position `q`; `l1` is the state
      before. */
  ghost predicate Linking(all: seq<Item>, l1: Links, l: Links, fs: seq<nat>, q: nat) {
    |fs| <= |all| && Flags(all[..|fs|], fs) && l == l1.(cells := l.cells) && l.cells.Keys == l1.cells.Keys &&
    (forall y {:trigger y in l.cells} :: y in l1.cells && (y >= q || !l1.NotRef(y)) ==> l.cells[y] == l1.cells[y]) &&
    (forall k {:trigger all[k]} {:trigger ToldAt(all, fs, l.cells, k)} :: 0 <= k < |fs| ==>
      ToldAt(all, fs, l.cells, k)) &&
    (forall k {:trigger all[k]} {:trigger NearAt(all, fs, l1.cells, k)} :: 0 <= k < |fs| ==>
      NearAt(all, fs, l1.cells, k)) &&
    forall k {:trigger all[k]} :: 0 <= k < |fs| && Slotted(all[k]) ==> Behind(all[k]) <= q
  }

  lemma {:induction false} AtNext(all: seq<Item>, fs: seq<nat>, f: nat)
    requires |fs| < |all| && Flags(all[..|fs|], fs) && Flag(all[|fs|], f)
    ensures Flags(all[..|fs| + 1], fs + [f])
    ensures At(all, fs + [f], |fs| + 1) == After(all[|fs|], f, At(all, fs, |fs|)) && At(all, fs, |fs|) >= 0
    ensures forall k: nat :: k <= |fs| ==> At(all, fs + [f], k) == At(all, fs, k)
  {
    var n, gs := |fs|, fs + [f];
    var items := all[..n + 1];
    assert items[..n] == all[..n] && gs[..n] == fs && fs[..n] == fs && gs[..n + 1] == gs;
    forall k {:trigger items[k]} {:trigger gs[k]} | 0 <= k < |items| ensures Flag(items[k], gs[k]) {
      if k < n { assert Flag(all[..n][k], fs[k]); }
    }
    forall k: nat | k <= n ensures At(all, gs, k) == At(all, fs, k) { assert gs[..k] == fs[..k]; }
  }

  lemma {:induction false} StillNear(all: seq<Item>, fs: seq<nat>, f: nat, cells: map<nat, int>, k: nat)
    requires |fs| < |all| && Flags(all[..|fs|], fs) && Flag(all[|fs|], f) && k < |fs| && NearAt(all, fs, cells, k)
    ensures NearAt(all, fs + [f], cells, k)
  {
    AtNext(all, fs, f);
    if all[k].Rel? && fs[k] != 0 && Targeted(all, cells[all[k].slot]) {
      var m :| Target(all, cells[all[k].slot], m) && CloseTo(all, fs, k, m);
      assert CloseTo(all, fs + [f], k, m);
    }
  }

  /** The cell that pass 2 changes for an item. */
  function Changed(x: Item): nat
    requires Slotted(x)
  {
    if x.Rel? then x.slot + 1 else x.slot
  }

  lemma {:induction false} LinkedStays(all: seq<Item>, l1: Links, l: Links, l': Links, fs: seq<nat>, q: nat, f: nat,
                                       k: nat)
    requires |fs| < |all| && Flags(all[..|fs|], fs) && Flag(all[|fs|], f) && k <= |fs|
    requires k < |fs| ==>
      ToldAt(all, fs, l.cells, k) && NearAt(all, fs, l1.cells, k) && (Slotted(all[k]) ==> Behind(all[k]) <= q)
    requires k == |fs| ==> NearAt(all, fs + [f], l1.cells, k)
    requires var x := all[|fs|];
      (Slotted(x) ==> q <= x.slot && Changed(x) in l.cells) &&
      l' == if x.Here? || x.Rel? then l.(cells := l.cells[Changed(x) := if x.Here? then At(all, fs, |fs|) else f])
        else l
    ensures ToldAt(all, fs + [f], l'.cells, k) && NearAt(all, fs + [f], l1.cells, k)
  {
    AtNext(all, fs, f);
    if k < |fs| { StillNear(all, fs, f, l1.cells, k); }
    hide NearAt;
  }

  lemma {:induction false} LinkNext(all: seq<Item>, l1: Links, l: Links, l': Links, fs: seq<nat>, q: nat, f: nat,
                                    q': nat)
    requires Linking(all, l1, l, fs, q) && |fs| < |all| && Flag(all[|fs|], f) && q <= q'
    requires var x := all[|fs|];
      (Slotted(x) ==> q <= x.slot && Behind(x) <= q' && Changed(x) in l1.cells) &&
      if x.Here? || x.Rel? then
        l1.NotRef(Changed(x)) && l' == l.(cells := l.cells[Changed(x) := if x.Here? then At(all, fs, |fs|) else f])
      else l' == l
    requires NearAt(all, fs + [f], l1.cells, |fs|)
    ensures Linking(all, l1, l', fs + [f], q')
  {
    hide ToldAt, NearAt, At;
    var n, gs := |fs|, fs + [f];
    AtNext(all, fs, f);
    forall k {:trigger ToldAt(all, gs, l'.cells, k)} | 0 <= k < |gs| ensures ToldAt(all, gs, l'.cells, k) {
      assert k < n ==> (Slotted(all[k]) ==> Behind(all[k]) <= q);
      LinkedStays(all, l1, l, l', fs, q, f, k);
    }
    forall k {:trigger NearAt(all, gs, l1.cells, k)} | 0 <= k < |gs| ensures NearAt(all, gs, l1.cells, k) {
      assert k < n ==> (Slotted(all[k]) ==> Behind(all[k]) <= q);
      LinkedStays(all, l1, l, l', fs, q, f, k);
    }
    forall y {:trigger y in l'.cells} | y in l1.cells && (y >= q' || !l1.NotRef(y)) ensures l'.cells[y] == l1.cells[y] {
      assert y in l.cells;
    }
    assert l'.cells.Keys == l1.cells.Keys;
  }

  // ----- positions -----

  lemma {:induction false} SecAt(code: seq<seq<Item>>, pos: seq<nat>, ofs: seq<nat>, l: Links, s: nat)
    requires SecsOk(code, pos, ofs, l) && s < |code|
    ensures SecOk(s, code[s], pos[s], ofs[s], l)
  {
    assert code[s] == code[s];
  }

  lemma {:induction false} InLineAppend(a: seq<Item>, b: seq<Item>, lo: nat, mid: nat, hi: nat)
    requires InLine(a, lo, mid) && InLine(b, mid, hi)
    ensures InLine(a + b, lo, hi)
  {
    var c := a + b;
    forall k {:trigger c[k]} | 0 <= k < |c| && Slotted(c[k]) ensures lo <= c[k].slot && Behind(c[k]) <= hi {
      if k < |a| { assert c[k] == a[k]; } else { assert c[k] == b[k - |a|]; }
    }
    forall j, k {:trigger c[j], c[k]} | 0 <= j < k < |c| && Slotted(c[j]) && Slotted(c[k])
      ensures Behind(c[j]) <= c[k].slot
    {
      if k < |a| {
        assert c[j] == a[j] && c[k] == a[k];
      } else {
        assert c[k] == b[k - |a|];
        if j < |a| { assert c[j] == a[j]; } else { assert c[j] == b[j - |a|]; }
      }
    }
  }

  /** The positions of all items lie one behind the other. */
  lemma {:induction false} AllInLine(code: seq<seq<Item>>, pos: seq<nat>, ofs: seq<nat>, l: Links, s: nat)
    requires SecsOk(code, pos, ofs, l) && s <= |code|
    ensures InLine(Upto(code, s), 0, SecPos(s))
  {
    if s > 0 {
      AllInLine(code, pos, ofs, l, s - 1);
      SecAt(code, pos, ofs, l, s - 1);
      InLineWider(code[s - 1], SecPos(s - 1), pos[s - 1], SecPos(s));
      InLineAppend(Upto(code, s - 1), code[s - 1], 0, SecPos(s - 1), SecPos(s));
    }
  }

  lemma {:induction false} WholeInLine(code: seq<seq<Item>>, pos: seq<nat>, ofs: seq<nat>, l: Links)
    requires SecsOk(code, pos, ofs, l)
    ensures InLine(All(code), 0, SecPos(|code|))
  {
    AllInLine(code, pos, ofs, l, |code|);
  }

  lemma {:induction false} InLineWider(a: seq<Item>, lo: nat, mid: nat, hi: nat)
    requires InLine(a, lo, mid) && mid <= hi
    ensures InLine(a, lo, hi)
  {
  }

  /** The section and place of an item. */
  lemma {:induction false} Locate(code: seq<seq<Item>>, s: nat, m: nat) returns (t: nat, j: nat)
    requires s <= |code| && m < |Upto(code, s)|
    ensures t < s && j < |code[t]| && Index(code, t, j) == m
  {
    if m < |Upto(code, s - 1)| {
      t, j := Locate(code, s - 1, m);
    } else {
      t, j := s - 1, m - |Upto(code, s - 1)|;
    }
  }

  /** What pass 1 stored for an item, and the section that its position is in. */
  lemma {:induction false} FilledAt(code: seq<seq<Item>>, pos: seq<nat>, ofs: seq<nat>, l: Links, s: nat, i: nat)
    requires SecsOk(code, pos, ofs, l) && s < |code| && i < |code[s]|
    ensures FilledItem(code[s][i], Estimate(code[s][..i]), l)
    ensures Slotted(code[s][i]) ==> SecPos(s) <= code[s][i].slot && Behind(code[s][i]) <= SecPos(s + 1)
  {
    SecAt(code, pos, ofs, l, s);
    assert code[s][i] == code[s][i];
  }

  // ----- branches -----

  /** What pass 2 sees of the branch at `k` and its label at `m`. `adj` is how far offsets
      have moved. */
  ghost predicate InSight(code: seq<seq<Item>>, s: nat, l: Links, fs: seq<nat>, adj: int, k: nat, m: int) {
    s <= |code| && 0 <= m < |All(code)| && k == |fs| < |All(code)| && m != k && All(code)[k].Rel? &&
    var q := All(code)[k].slot;
    q in l.cells && q + 1 in l.cells && l.cells[q] >= 0 &&
    var lpos: nat := l.cells[q];
    lpos in l.cells && Target(All(code), lpos, m) && (lpos > q <==> m > k) &&
    if m > k then AheadIs(code, s, l, k, m, q, lpos) else BehindIs(code, l, fs, adj, k, m, q, lpos)
  }

  ghost predicate AheadIs(code: seq<seq<Item>>, s: nat, l: Links, k: nat, m: nat, q: nat, lpos: nat)
    requires s <= |code| && k < m < |All(code)| && q + 1 in l.cells && lpos in l.cells
  {
    s <= lpos / 0x1000000 < |code| &&
    l.cells[lpos] + Base(code, lpos / 0x1000000) - Base(code, s) - l.cells[q + 1] ==
    Estimate(All(code)[..m]) - Estimate(All(code)[..k + 1])
  }

  ghost predicate BehindIs(code: seq<seq<Item>>, l: Links, fs: seq<nat>, adj: int, k: nat, m: nat, q: nat, lpos: nat)
    requires q + 1 in l.cells && lpos in l.cells
  {
    l.cells[lpos] - adj - l.cells[q + 1] == At(All(code), fs, m) - At(All(code), fs, k) - 4
  }

  /** What the cells of a branch hold when pass 2 comes to it. */
  lemma {:induction false} RefCells(code: seq<seq<Item>>, pos: seq<nat>, ofs: seq<nat>, l1: Links, l: Links,
                                    fs: seq<nat>, q0: nat, s: nat, i: nat)
    requires SecsOk(code, pos, ofs, l1) && s < |code| && i < |code[s]| && |fs| == Index(code, s, i)
    requires Linking(All(code), l1, l, fs, q0) && code[s][i].Rel? && q0 <= code[s][i].slot
    ensures var all, k, q := All(code), |fs|, code[s][i].slot;
      k < |all| && all[k] == code[s][i] && q in l.cells && l.cells[q] == l1.cells[q] && q + 1 in l.cells &&
      l.cells[q + 1] == Estimate(all[..k + 1]) - Base(code, s) && l1.NotRef(q + 1)
  {
    hide Linking, At, Upto, SecPos;
    IndexIs(code, s, i);
    IndexIs(code, s, i + 1);
    FilledAt(code, pos, ofs, l1, s, i);
    hide SecsOk;
    assert code[s][..i + 1][..i] == code[s][..i] && code[s][..i + 1][i] == code[s][i];
    Unchanged(All(code), l1, l, fs, q0, code[s][i].slot);
    Unchanged(All(code), l1, l, fs, q0, code[s][i].slot + 1);
  }

  lemma {:induction false} Unchanged(all: seq<Item>, l1: Links, l: Links, fs: seq<nat>, q0: nat, y: nat)
    requires Linking(all, l1, l, fs, q0) && y in l1.cells && (y >= q0 || !l1.NotRef(y))
    ensures y in l.cells && l.cells[y] == l1.cells[y]
  {
  }

  /** What the cell of a label held before pass 2. */
  lemma {:induction false} LabelCell(code: seq<seq<Item>>, pos: seq<nat>, ofs: seq<nat>, l1: Links, m: nat)
    returns (t: nat, j: nat)
    requires SecsOk(code, pos, ofs, l1) && m < |All(code)| && All(code)[m].Here?
    ensures var all, lpos := All(code), All(code)[m].slot;
      t < |code| && j < |code[t]| && Index(code, t, j) == m && code[t][j] == all[m] &&
      lpos in l1.cells && l1.cells[lpos] == Estimate(all[..m]) - Base(code, t) && lpos / 0x1000000 == t
  {
    t, j := Locate(code, |code|, m);
    IndexIs(code, t, j);
    FilledAt(code, pos, ofs, l1, t, j);
    SectionOf(All(code)[m].slot, t);
  }

  lemma {:induction false} InOrder(items: seq<Item>, lo: nat, hi: nat, k: nat, m: nat)
    requires InLine(items, lo, hi) && k < |items| && m < |items| && items[k].Rel? && items[m].Here?
    ensures k != m && (items[m].slot > items[k].slot <==> m > k)
  {
  }

  lemma {:induction false} Sees(code: seq<seq<Item>>, pos: seq<nat>, ofs: seq<nat>, l1: Links, l: Links, fs: seq<nat>,
                                q0: nat, s: nat, i: nat, adj: int, m: int)
    requires SecsOk(code, pos, ofs, l1) && s < |code| && i < |code[s]| && |fs| == Index(code, s, i)
    requires Linking(All(code), l1, l, fs, q0) && code[s][i].Rel? && q0 <= code[s][i].slot
    requires adj == At(All(code), fs, |fs|) - Estimate(All(code)[..|fs|]) + Base(code, s)
    requires code[s][i].slot in l1.cells && Target(All(code), l1.cells[code[s][i].slot], m)
    ensures InSight(code, s, l, fs, adj, |fs|, m)
    ensures l.cells[code[s][i].slot] == l1.cells[code[s][i].slot]
  {
    hide *;
    var all, k, q := All(code), |fs|, code[s][i].slot;
    TargetIs(all, l1.cells[q], m);
    RefCells(code, pos, ofs, l1, l, fs, q0, s, i);
    WholeInLine(code, pos, ofs, l1);
    InOrder(all, 0, SecPos(|code|), k, m);
    if m > k {
      SeesAhead(code, pos, ofs, l1, l, fs, q0, s, i, m);
    } else {
      SeesBehind(code, l1, l, fs, q0, s, adj, k, m, q);
    }
    Assembled(code, s, l, fs, adj, k, m);
  }

  lemma {:induction false} TargetIs(all: seq<Item>, v: int, m: int)
    requires Target(all, v, m)
    ensures 0 <= m < |all| && all[m].Here? && v == all[m].slot
  {
  }

  lemma {:induction false} Assembled(code: seq<seq<Item>>, s: nat, l: Links, fs: seq<nat>, adj: int, k: nat, m: int)
    requires s <= |code| && 0 <= m < |All(code)| && k == |fs| < |All(code)| && m != k && All(code)[k].Rel? &&
      All(code)[m].Here?
    requires var q, lpos := All(code)[k].slot, All(code)[m].slot;
      q in l.cells && q + 1 in l.cells && l.cells[q] == lpos && lpos in l.cells && (lpos > q <==> m > k) &&
      if m > k then AheadIs(code, s, l, k, m, q, lpos) else BehindIs(code, l, fs, adj, k, m, q, lpos)
    ensures InSight(code, s, l, fs, adj, k, m)
  {
    hide AheadIs, BehindIs;
  }

  lemma {:induction false} SeesAhead(code: seq<seq<Item>>, pos: seq<nat>, ofs: seq<nat>, l1: Links, l: Links,
                                     fs: seq<nat>, q0: nat, s: nat, i: nat, m: int)
    requires SecsOk(code, pos, ofs, l1) && s < |code| && i < |code[s]| && |fs| == Index(code, s, i) < m
    requires Linking(All(code), l1, l, fs, q0) && code[s][i].Rel? && q0 <= code[s][i].slot
    requires code[s][i].slot in l1.cells && Target(All(code), l1.cells[code[s][i].slot], m) &&
      All(code)[m].slot > code[s][i].slot
    ensures var q, lpos := code[s][i].slot, All(code)[m].slot;
      |fs| < m < |All(code)| && q + 1 in l.cells && lpos in l.cells && AheadIs(code, s, l, |fs|, m, q, lpos)
  {
    RefCells(code, pos, ofs, l1, l, fs, q0, s, i);
    var t, j := LabelCell(code, pos, ofs, l1, m);
    hide SecsOk, SecPos, Upto, Base, Estimate;
    Unchanged(All(code), l1, l, fs, q0, All(code)[m].slot);
    Later(code, s, i, t, j);
    hide Linking;
  }

  lemma {:induction false} SeesBehind(code: seq<seq<Item>>, l1: Links, l: Links, fs: seq<nat>, q0: nat, s: nat,
                                      adj: int, k: nat, m: nat, q: nat)
    requires s <= |code| && m < k == |fs| < |All(code)| && Linking(All(code), l1, l, fs, q0) && All(code)[k].Rel?
    requires adj == At(All(code), fs, k) - Estimate(All(code)[..k]) + Base(code, s) && All(code)[m].Here?
    requires q + 1 in l.cells && l.cells[q + 1] == Estimate(All(code)[..k + 1]) - Base(code, s)
    ensures All(code)[m].slot in l.cells && BehindIs(code, l, fs, adj, k, m, q, All(code)[m].slot)
  {
    ToldLabel(All(code), l1, l, fs, q0, m);
    RelSize(All(code), k);
    hide Linking, At, Upto, Base, Estimate;
  }

  lemma {:induction false} ToldLabel(all: seq<Item>, l1: Links, l: Links, fs: seq<nat>, q: nat, m: nat)
    requires Linking(all, l1, l, fs, q) && m < |fs| && all[m].Here?
    ensures all[m].slot in l.cells && l.cells[all[m].slot] == At(all, fs, m)
  {
    assert ToldAt(all, fs, l.cells, m);
  }

  lemma {:induction false} RelSize(all: seq<Item>, k: nat)
    requires k < |all| && all[k].Rel?
    ensures Estimate(all[..k + 1]) == Estimate(all[..k]) + 4
  {
    assert all[..k + 1][..k] == all[..k];
  }

  lemma {:induction false} SectionOf(q: nat, t: nat)
    requires SecPos(t) <= q < SecPos(t + 1)
    ensures q / 0x1000000 == t
  {
  }

  lemma {:induction false} Later(code: seq<seq<Item>>, s: nat, i: nat, t: nat, j: nat)
    requires s < |code| && t < |code| && i < |code[s]| && j < |code[t]| && Index(code, s, i) < Index(code, t, j)
    ensures s <= t
  {
    if t < s { UptoGrows(code, t + 1, s); }
  }

  lemma {:induction false} UptoGrows(code: seq<seq<Item>>, a: nat, b: nat)
    requires a <= b <= |code|
    ensures |Upto(code, a)| <= |Upto(code, b)|
    decreases b
  {
    if a < b { UptoGrows(code, a, b - 1); }
  }

  /** A branch that is shrunk is near its label. */
  lemma {:induction false} Decided(code: seq<seq<Item>>, s: nat, l1: Links, l: Links, fs: seq<nat>, adj: int, m: int,
                                   f: nat, lofs: int)
    requires InSight(code, s, l, fs, adj, |fs|, m) && Flags(All(code)[..|fs|], fs)
    requires var all := All(code); var q := all[|fs|].slot; var lpos: nat := l.cells[q];
      q in l1.cells && l1.cells[q] == l.cells[q] && (f == 0 || f == Shrink(all[|fs|].op)) &&
      lofs == l.cells[lpos] - l.cells[q + 1] +
        if lpos > q then Base(code, lpos / 0x1000000) - Base(code, s) else -adj
    requires f != 0 ==> -128 - f <= lofs <= 127
    ensures NearAt(All(code), fs + [f], l1.cells, |fs|) && Flag(All(code)[|fs|], f)
  {
    var all, k := All(code), |fs|;
    AtNext(all, fs, f);
    if f != 0 { assert CloseTo(all, fs + [f], k, m); }
  }

  // ----- the start of pass 2 -----

  /** Marking the undefined globals keeps what pass 1 stored. */
  lemma {:induction false} SecsMarked(code: seq<seq<Item>>, pos: seq<nat>, ofs: seq<nat>, l: Links, l1: Links,
                                      from: nat, to: nat)
    requires SecsOk(code, pos, ofs, l) && l.Marks(l1, from, to)
    ensures SecsOk(code, pos, ofs, l1)
  {
    assert l.Extends(l1);
    forall s {:trigger code[s]} | 0 <= s < |code| ensures SecOk(s, code[s], pos[s], ofs[s], l1) {
      FilledKept(code[s], l, l1);
    }
  }

  /** The label that a definition put. */
  lemma {:induction false} DefTarget(code: seq<seq<Item>>, log: seq<Event>, j: nat) returns (m: nat)
    requires DefsPlaced(code, log) && j < |log| && log[j].Def?
    ensures Target(All(code), log[j].pos, m) && All(code)[m].tag == log[j].tag
  {
    assert HasLabel(code, log[j].pos, log[j].tag);
    var s, i :| LabelAt(code, s, i, log[j].pos, log[j].tag);
    IndexIs(code, s, i);
    m := Index(code, s, i);
  }

  /** After the marking, a reference holds the position of the label that it asks for; for
      an undefined global it holds a marker, and for any other undefined label the next
      position of the label's chain, or 0. */
  lemma {:induction false} RefAimed(code: seq<seq<Item>>, l0: Links, l1: Links, from: nat, to: nat, i: nat)
    requires l0.Ok() && l0.Marks(l1, from, to) && DefsPlaced(code, l0.log) && 0 < from && to >= |l0.lg|
    requires 0 in l0.cells && i < |l0.log| && l0.log[i].Ref?
    ensures var q, tag := l0.log[i].pos, l0.log[i].tag;
      q in l1.cells &&
      if Pending(l0.log, i) then
        if tag.Lg? && tag.idx >= from then l1.cells[q] == Neg(tag.idx) && tag.idx < |l0.lg|
        else l1.cells[q] >= 0 && l1.cells[q] in l1.cells
      else exists j: nat, m :: Binds(l0.log, i, j) && l1.cells[q] == l0.log[j].pos && Target(All(code), l1.cells[q], m)
  {
    assert l0.EventOk(i);
    if Pending(l0.log, i) {
      var tag := l0.log[i].tag;
      assert l0.LabelOk(tag);
      l0.ChainCells(l0.Head(tag), l0.Chain(tag), i);
    } else {
      var j: nat :| Binds(l0.log, i, j) && l0.cells[l0.log[i].pos] == l0.log[j].pos;
      var m := DefTarget(code, l0.log, j);
    }
  }

  lemma {:induction false} AllAimed(code: seq<seq<Item>>, pos: seq<nat>, ofs: seq<nat>, l0: Links, l1: Links,
                                    from: nat, to: nat)
    requires l0.Ok() && l0.Marks(l1, from, to) && DefsPlaced(code, l0.log) && 0 < from && to >= |l0.lg|
    requires SecsOk(code, pos, ofs, l1) && (l0.log == [] || 0 in l0.cells)
    ensures Aimed(All(code), l1.cells)
  {
    var all := All(code);
    forall k {:trigger all[k]} | 0 <= k < |all| && (all[k].Rel? || all[k].Addr?)
      ensures all[k].slot in l1.cells && (l1.cells[all[k].slot] < 0 || l1.cells[all[k].slot] in l1.cells)
    {
      var s, i := Locate(code, |code|, k);
      IndexIs(code, s, i);
      FilledAt(code, pos, ofs, l1, s, i);
      var j :| 0 <= j < |l1.log| && l1.log[j].Ref? && l1.log[j].pos == all[k].slot;
      RefAimed(code, l0, l1, from, to, j);
      if !Pending(l0.log, j) {
        var m: nat :| m < |all| && all[m].Here? && all[m].slot == l1.cells[all[k].slot];
        var t, n := LabelCell(code, pos, ofs, l1, m);
      }
    }
  }

  // ----- the steps of pass 2 -----

  /** How far offsets have moved, where pass 2 is in section `s`. */
  ghost predicate Adjusted(code: seq<seq<Item>>, s: nat, fs: seq<nat>, adj: int) {
    s <= |code| && |fs| <= |All(code)| && adj == At(All(code), fs, |fs|) - Estimate(All(code)[..|fs|]) + Base(code, s)
  }

  lemma {:induction false} AdjustedNext(code: seq<seq<Item>>, s: nat, fs: seq<nat>, adj: int, f: nat)
    requires Adjusted(code, s, fs, adj) && |fs| < |All(code)| && Flags(All(code)[..|fs|], fs) &&
      Flag(All(code)[|fs|], f)
    ensures var x, o := All(code)[|fs|], At(All(code), fs, |fs|);
      Adjusted(code, s, fs + [f], if x.Align? then adj - (o + x.mask) % (x.mask + 1) else if x.Rel? then adj - f
        else adj)
  {
    var all, k := All(code), |fs|;
    hide Upto, Base;
    AtNext(all, fs, f);
    assert all[..k + 1][..k] == all[..k];
    hide At, Flags;
  }

  /** Where pass 2 is: at item `i` of section `s`, with changes below position `q`. */
  ghost predicate LinkingAt(code: seq<seq<Item>>, pos: seq<nat>, ofs: seq<nat>, l1: Links, l: Links, fs: seq<nat>,
                            q: nat, s: nat, i: nat, adj: int) {
    SecsOk(code, pos, ofs, l1) && Aimed(All(code), l1.cells) && s < |code| && i <= |code[s]| &&
    |fs| == Index(code, s, i) &&
    Linking(All(code), l1, l, fs, q) && SlotsFrom(code[s], i, q) && q <= SecPos(s + 1) && Adjusted(code, s, fs, adj)
  }

  /** The positions of the items from `i` on are at least `q`. */
  predicate SlotsFrom(items: seq<Item>, i: nat, q: nat) {
    forall k {:trigger items[k]} :: i <= k < |items| && Slotted(items[k]) ==> q <= items[k].slot
  }

  /** The item that pass 2 has come to, with its cells as pass 1 left them. */
  lemma {:induction false} ItemCells(code: seq<seq<Item>>, pos: seq<nat>, ofs: seq<nat>, l1: Links, l: Links,
                                     fs: seq<nat>, q: nat, s: nat, i: nat, adj: int)
    requires LinkingAt(code, pos, ofs, l1, l, fs, q, s, i, adj) && i < |code[s]|
    ensures |fs| < |All(code)| && All(code)[|fs|] == code[s][i] && Flags(All(code)[..|fs|], fs)
    ensures Slotted(code[s][i]) ==> q <= code[s][i].slot && Behind(code[s][i]) <= SecPos(s + 1)
    ensures Slotted(code[s][i]) && !code[s][i].Addr? ==>
      CellAt(l1, l, Changed(code[s][i])) && l1.NotRef(Changed(code[s][i]))
    ensures Slotted(code[s][i]) ==> CellAt(l1, l, code[s][i].slot)
  {
    hide At, Base, Flags, Estimate, Adjusted, InLine;
    IndexIs(code, s, i);
    FilledAt(code, pos, ofs, l1, s, i);
    assert code[s][i] == code[s][i];
    hide SecsOk, Upto, SecPos;
    if Slotted(code[s][i]) {
      Unchanged(All(code), l1, l, fs, q, code[s][i].slot);
      Unchanged(All(code), l1, l, fs, q, Changed(code[s][i]));
    }
    LinkingFlags(All(code), l1, l, fs, q);
    hide Linking;
  }

  lemma {:induction false} LinkingFlags(all: seq<Item>, l1: Links, l: Links, fs: seq<nat>, q: nat)
    requires Linking(all, l1, l, fs, q)
    ensures |fs| <= |all| && Flags(all[..|fs|], fs)
  {
  }

  predicate CellAt(l1: Links, l: Links, y: nat) { y in l.cells && y in l1.cells && l.cells[y] == l1.cells[y] }

  /** With what offsets have moved by, estimates are true offsets. */
  lemma {:induction false} ItemOffset(code: seq<seq<Item>>, pos: seq<nat>, ofs: seq<nat>, l1: Links, fs: seq<nat>,
                                      s: nat, i: nat, adj: int)
    requires SecsOk(code, pos, ofs, l1) && s < |code| && i < |code[s]| && |fs| == Index(code, s, i) &&
      Adjusted(code, s, fs, adj)
    requires code[s][i].Here? || code[s][i].Align?
    ensures code[s][i].slot in l1.cells
    ensures l1.cells[code[s][i].slot] + adj == At(All(code), fs, |fs|) + MaxSize(code[s][i])
  {
    hide At, Base;
    IndexIs(code, s, i);
    FilledAt(code, pos, ofs, l1, s, i);
  }

  // ----- from item to item -----

  /** The cells after pass 2 has gone through an item. */
  function Relinked(x: Item, l: Links, v: int): Links {
    if x.Here? || x.Rel? then l.(cells := l.cells[Changed(x) := v]) else l
  }

  function Readjusted(x: Item, adj: int, f: nat, v: int): int {
    if x.Align? then adj - (v + adj) % (x.mask + 1) else if x.Rel? then adj - f else adj
  }

  function NextFree(x: Item, q: nat): nat { if Slotted(x) then Behind(x) else q }

  lemma {:induction false} ItemLinked(code: seq<seq<Item>>, pos: seq<nat>, ofs: seq<nat>, l1: Links, l: Links,
                                      fs: seq<nat>, q: nat, s: nat, i: nat, adj: int, f: nat)
    requires LinkingAt(code, pos, ofs, l1, l, fs, q, s, i, adj) && i < |code[s]| && Flag(code[s][i], f)
    requires |fs| < |All(code)| && NearAt(All(code), fs + [f], l1.cells, |fs|)
    ensures var x := code[s][i];
      (Slotted(x) ==> x.slot in l.cells) &&
      var v := if x.Here? then l.cells[x.slot] + adj else f;
      LinkingAt(code, pos, ofs, l1, Relinked(x, l, v), fs + [f], NextFree(x, q), s, i + 1,
                Readjusted(x, adj, f, if x.Align? then l.cells[x.slot] else 0))
  {
    hide SecsOk, Aimed, Linking, At, Upto, Base, Estimate, NearAt, SecPos, Flags, SlotsFrom, Adjusted, All;
    var x := code[s][i];
    ItemCells(code, pos, ofs, l1, l, fs, q, s, i, adj);
    SlotsNext(code, pos, ofs, l1, s, i, q);
    if x.Here? || x.Align? { ItemOffset(code, pos, ofs, l1, fs, s, i, adj); }
    AdjustedNext(code, s, fs, adj, f);
    var l' := Relinked(x, l, if x.Here? then l.cells[x.slot] + adj else f);
    LinkNext(All(code), l1, l, l', fs, q, f, NextFree(x, q));
  }

  lemma {:induction false} SlotsAfter(items: seq<Item>, lo: nat, hi: nat, i: nat, q: nat)
    requires InLine(items, lo, hi) && i < |items| && SlotsFrom(items, i, q)
    ensures SlotsFrom(items, i + 1, NextFree(items[i], q))
  {
    assert items[i] == items[i];
  }

  lemma {:induction false} SlotsNext(code: seq<seq<Item>>, pos: seq<nat>, ofs: seq<nat>, l1: Links, s: nat, i: nat,
                                     q: nat)
    requires SecsOk(code, pos, ofs, l1) && s < |code| && i < |code[s]| && SlotsFrom(code[s], i, q)
    ensures SlotsFrom(code[s], i + 1, NextFree(code[s][i], q))
  {
    SecAt(code, pos, ofs, l1, s);
    SlotsAfter(code[s], SecPos(s), pos[s], i, q);
  }

  /** Pass 2 is at the start of section `s`, or at the end. */
  ghost predicate LinkingSection(code: seq<seq<Item>>, pos: seq<nat>, ofs: seq<nat>, l1: Links, l: Links, fs: seq<nat>,
                                 q: nat, s: nat, adj: int) {
    SecsOk(code, pos, ofs, l1) && Aimed(All(code), l1.cells) && s <= |code| && |fs| == |Upto(code, s)| &&
    Linking(All(code), l1, l, fs, q) && q <= SecPos(s) && Adjusted(code, s, fs, adj)
  }

  lemma {:induction false} LinkStarts(code: seq<seq<Item>>, pos: seq<nat>, ofs: seq<nat>, l1: Links)
    requires SecsOk(code, pos, ofs, l1) && Aimed(All(code), l1.cells)
    ensures LinkingSection(code, pos, ofs, l1, l1, [], 0, 0, 0)
  {
    assert All(code)[..0] == [];
  }

  lemma {:induction false} SectionStarts(code: seq<seq<Item>>, pos: seq<nat>, ofs: seq<nat>, l1: Links, l: Links,
                                         fs: seq<nat>, q: nat, s: nat, adj: int)
    requires LinkingSection(code, pos, ofs, l1, l, fs, q, s, adj) && s < |code|
    ensures LinkingAt(code, pos, ofs, l1, l, fs, q, s, 0, adj)
  {
    SecAt(code, pos, ofs, l1, s);
    hide Linking, Adjusted, Aimed, Upto;
  }

  lemma {:induction false} SectionEnds(code: seq<seq<Item>>, pos: seq<nat>, ofs: seq<nat>, l1: Links, l: Links,
                                       fs: seq<nat>, q: nat, s: nat, adj: int)
    requires s < |code| && LinkingAt(code, pos, ofs, l1, l, fs, q, s, |code[s]|, adj)
    ensures LinkingSection(code, pos, ofs, l1, l, fs, q, s + 1, adj + ofs[s])
  {
    SecAt(code, pos, ofs, l1, s);
    BaseNext(code, s);
    hide Linking, Aimed, At, Base, Estimate;
  }

  /** Pass 2 is done: labels hold their true offsets, branches how much they are shrunk. */
  ghost predicate Linked(code: seq<seq<Item>>, l1: Links, l: Links, fs: seq<nat>, q: nat) {
    Linking(All(code), l1, l, fs, q) && |fs| == |All(code)| && Aimed(All(code), l1.cells)
  }

  lemma {:induction false} LinkEnds(code: seq<seq<Item>>, pos: seq<nat>, ofs: seq<nat>, l1: Links, l: Links,
                                    fs: seq<nat>, q: nat, adj: int)
    requires LinkingSection(code, pos, ofs, l1, l, fs, q, |code|, adj)
    ensures Linked(code, l1, l, fs, q) && Flags(All(code), fs) && adj == Offset(All(code), fs)
  {
    assert All(code)[..|fs|] == All(code) && fs[..|fs|] == fs;
  }

  /** References keep what they hold. */
  lemma {:induction false} RefKept(code: seq<seq<Item>>, pos: seq<nat>, ofs: seq<nat>, l1: Links, l: Links,
                                   fs: seq<nat>, q: nat, k: nat)
    requires SecsOk(code, pos, ofs, l1) && Linking(All(code), l1, l, fs, q) && k < |All(code)|
    requires All(code)[k].Rel? || All(code)[k].Addr?
    ensures CellAt(l1, l, All(code)[k].slot)
  {
    var s, i := Locate(code, |code|, k);
    IndexIs(code, s, i);
    FilledAt(code, pos, ofs, l1, s, i);
    hide SecsOk, Upto, FilledItem;
    RefIsRef(code[s][i], Estimate(code[s][..i]), l1);
    Unchanged(All(code), l1, l, fs, q, All(code)[k].slot);
  }

  lemma {:induction false} RefIsRef(x: Item, e: nat, l: Links)
    requires FilledItem(x, e, l) && (x.Rel? || x.Addr?)
    ensures x.slot in l.cells && !l.NotRef(x.slot)
  {
  }

  /** Every branch that pass 2 made short reaches its label with a displacement of one
      byte, however much of the program between them has shrunk. */
  lemma {:induction false} ShortBranch(code: seq<seq<Item>>, pos: seq<nat>, ofs: seq<nat>, l1: Links, l: Links,
                                       fs: seq<nat>, q: nat, k: nat) returns (m: nat)
    requires SecsOk(code, pos, ofs, l1) && Linked(code, l1, l, fs, q) && k < |fs| && All(code)[k].Rel? && fs[k] != 0
    requires All(code)[k].slot in l1.cells && Targeted(All(code), l1.cells[All(code)[k].slot])
    ensures var all := All(code);
      Flags(all, fs) && m < |all| && all[m].Here? && all[k].slot in l.cells && l.cells[all[k].slot] == all[m].slot &&
      m != k
    ensures -128 <= Displacement(All(code), fs, k, m) <= 127
  {
    var all := All(code);
    assert all[..|fs|] == all;
    RefKept(code, pos, ofs, l1, l, fs, q, k);
    hide SecsOk, All;
    LinkingFlags(all, l1, l, fs, q);
    var t := NearTarget(all, l1, l, fs, q, k);
    m := t;
    ShortReaches(all, fs, k, m);
  }

  lemma {:induction false} NearTarget(all: seq<Item>, l1: Links, l: Links, fs: seq<nat>, q: nat, k: nat)
    returns (m: nat)
    requires Linking(all, l1, l, fs, q) && |fs| == |all| && k < |fs| && all[k].Rel? && fs[k] != 0 && Flags(all, fs)
    requires all[k].slot in l1.cells && Targeted(all, l1.cells[all[k].slot])
    ensures all[k].slot in l1.cells && m < |all| && all[m].Here? && l1.cells[all[k].slot] == all[m].slot && m != k
    ensures Near(all, fs, k, m)
  {
    assert NearAt(all, fs, l1.cells, k);
    var t :| Target(all, l1.cells[all[k].slot], t) && CloseTo(all, fs, k, t);
    m := t;
    FlagsUpTo(all, fs, m);
    FlagsUpTo(all, fs, k + 1);
  }

  lemma {:induction false} NotBranch(all: seq<Item>, fs: seq<nat>, cells: map<nat, int>)
    requires |fs| < |all| && !all[|fs|].Rel?
    ensures Flag(all[|fs|], 0) && NearAt(all, fs + [0], cells, |fs|)
  {
  }

  lemma {:induction false} NotShrunk(all: seq<Item>, fs: seq<nat>, cells: map<nat, int>)
    requires |fs| < |all| && all[|fs|].Rel?
    ensures Flag(all[|fs|], 0) && NearAt(all, fs + [0], cells, |fs|)
  {
  }

  /** A branch that has no label may shrink or not. */
  lemma {:induction false} Unlabelled(all: seq<Item>, fs: seq<nat>, cells: map<nat, int>, f: nat)
    requires |fs| < |all| && all[|fs|].Rel? && Flag(all[|fs|], f)
    requires all[|fs|].slot in cells && cells[all[|fs|].slot] >= 0 && !Targeted(all, cells[all[|fs|].slot])
    ensures NearAt(all, fs + [f], cells, |fs|)
  {
  }

  /** What pass 2 reads for the branch at position `q` in section `s`. */
  predicate Readable(cells: map<nat, int>, q: nat, s: nat, sections: nat) {
    q in cells && q + 1 in cells &&
    (cells[q] >= 0 ==>
       var lpos: nat := cells[q];
       lpos in cells && (lpos > q ==> s <= lpos / 0x1000000 < sections))
  }

  lemma {:induction false} BranchReadable(code: seq<seq<Item>>, pos: seq<nat>, ofs: seq<nat>, l1: Links, l: Links,
                                          fs: seq<nat>, q: nat, s: nat, i: nat, adj: int)
    requires LinkingAt(code, pos, ofs, l1, l, fs, q, s, i, adj) && i < |code[s]| && code[s][i].Rel?
    ensures Readable(l.cells, code[s][i].slot, s, |code|)
  {
    hide At, Base, Flags, Estimate, Adjusted, InLine, NearAt, ToldAt;
    ItemCells(code, pos, ofs, l1, l, fs, q, s, i, adj);
    FilledAt(code, pos, ofs, l1, s, i);
    var p := code[s][i].slot;
    assert All(code)[|fs|] == code[s][i];
    assert Within(l1.cells, |code|) && l.cells.Keys == l1.cells.Keys;
    if l.cells[p] >= 0 {
      var lpos: nat := l.cells[p];
      assert lpos in l1.cells && lpos < SecPos(|code|);
      if lpos > p { PositionIn(lpos, s, |code|); }
    }
  }

  lemma {:induction false} PositionIn(q: nat, s: nat, n: nat)
    requires SecPos(s) <= q < SecPos(n)
    ensures s <= q / 0x1000000 < n
  {
  }

  lemma {:induction false} SizesAre(code: seq<seq<Item>>, pos: seq<nat>, ofs: seq<nat>, l: Links)
    requires SecsOk(code, pos, ofs, l)
    ensures |ofs| == |code| && forall i {:trigger ofs[i]} :: 0 <= i < |ofs| ==> ofs[i] == Estimate(code[i])
  {
    forall i {:trigger ofs[i]} | 0 <= i < |ofs| ensures ofs[i] == Estimate(code[i]) { SecAt(code, pos, ofs, l, i); }
  }

  /** The label of the branch that pass 2 has come to. */
  lemma {:induction false} BranchTarget(code: seq<seq<Item>>, pos: seq<nat>, ofs: seq<nat>, l1: Links, l: Links,
                                        fs: seq<nat>, q: nat, s: nat, i: nat, adj: int) returns (m: int)
    requires LinkingAt(code, pos, ofs, l1, l, fs, q, s, i, adj) && i < |code[s]| && code[s][i].Rel?
    ensures |fs| < |All(code)| && All(code)[|fs|] == code[s][i] && Flags(All(code)[..|fs|], fs) &&
      CellAt(l1, l, code[s][i].slot)
    ensures Targeted(All(code), l1.cells[code[s][i].slot]) ==> InSight(code, s, l, fs, adj, |fs|, m)
  {
    ItemCells(code, pos, ofs, l1, l, fs, q, s, i, adj);
    m := 0;
    if Targeted(All(code), l1.cells[code[s][i].slot]) {
      assert All(code)[|fs|].Rel?;
      m :| Target(All(code), l1.cells[code[s][i].slot], m);
      Sees(code, pos, ofs, l1, l, fs, q, s, i, adj, m);
    }
  }
}
