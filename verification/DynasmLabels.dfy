/** The labels of the DynASM encoding engines (dasm_arm.h, dasm_x86.h). A label array
    entry is the position of the label, negated, or the newest of a chain of references
    to it that is threaded through the section buffers, or 0. */
module DynasmLabels {

  // ----- what references mean -----

  /** Local and global labels share an array; local ones have an index below 10. */
  datatype Label = Lg(idx: nat) | Pc(n: nat)

  /** What dasm_put meets, in order, with the buffer positions it uses. A forward
      reference, to a local label only, asks for the next definition; other references
      ask for the latest one if there is one, and otherwise for the next. */
  datatype Event = Ref(pos: nat, tag: Label, fwd: bool) | Def(pos: nat, tag: Label)

  function Neg(n: nat): int { -(n as int) }

  predicate Local(tag: Label) { tag.Lg? && tag.idx < 10 }

  predicate NoDef(log: seq<Event>, tag: Label, from: nat, to: nat)
    requires to <= |log|
  {
    forall k {:trigger log[k]} :: from <= k < to ==> !(log[k].Def? && log[k].tag == tag)
  }

  /** Event `i` is a reference, and `j` is the definition it asks for. */
  predicate Binds(log: seq<Event>, i: nat, j: nat) {
    i < |log| && j < |log| && log[i].Ref? && log[j].Def? && log[j].tag == log[i].tag &&
    if log[i].fwd || NoDef(log, log[i].tag, 0, i) then i < j && NoDef(log, log[i].tag, i, j)
    else j < i && NoDef(log, log[i].tag, j + 1, i)
  }

  /** The definition that reference `i` asks for is still to come. */
  predicate Pending(log: seq<Event>, i: nat) {
    i < |log| && log[i].Ref? && NoDef(log, log[i].tag, i, |log|) &&
    (log[i].fwd || NoDef(log, log[i].tag, 0, i))
  }

  lemma {:induction false} BindsOnce(log: seq<Event>, i: nat, j: nat, k: nat)
    requires Binds(log, i, j) && Binds(log, i, k)
    ensures j == k
  {
  }

  lemma {:induction false} PendingUnbound(log: seq<Event>, i: nat, j: nat)
    requires Pending(log, i)
    ensures !Binds(log, i, j)
  {
  }

  lemma {:induction false} StaysBound(log: seq<Event>, e: Event, i: nat, j: nat)
    requires Binds(log, i, j)
    ensures Binds(log + [e], i, j)
  {
    var log' := log + [e];
    assert forall k :: 0 <= k < |log| ==> log'[k] == log[k];
    if !NoDef(log, log[i].tag, 0, i) {
      var k :| 0 <= k < i && log[k].Def? && log[k].tag == log[i].tag;
      assert log'[k] == log[k];
    }
  }

  /** A reference stays pending unless its label is defined. */
  lemma {:induction false} NextEvent(log: seq<Event>, e: Event, i: nat)
    requires i < |log|
    ensures Pending(log + [e], i) <==> Pending(log, i) && !(e.Def? && e.tag == log[i].tag)
    ensures Pending(log, i) && e.Def? && e.tag == log[i].tag ==> Binds(log + [e], i, |log|)
  {
    var log' := log + [e];
    assert log'[i] == log[i] && log'[|log|] == e;
    assert forall k {:trigger log[k]} {:trigger log'[k]} :: 0 <= k < |log| ==> log'[k] == log[k];
    if Pending(log, i) {
      assert NoDef(log', log[i].tag, i, |log|);
      assert log[i].fwd || NoDef(log', log[i].tag, 0, i);
    }
    if Pending(log', i) {
      assert NoDef(log, log[i].tag, i, |log|);
      assert log[i].fwd || NoDef(log, log[i].tag, 0, i);
    }
  }

  // ----- how references are threaded -----

  /** The section buffers by biased position, the label arrays, what was put, and, for
      each label, the pending references, newest first. */
  datatype Links = Links(cells: map<nat, int>, lg: seq<int>, pc: seq<int>, log: seq<Event>,
                         chains: map<Label, seq<nat>>)
  {
    predicate InRange(tag: Label) {
      match tag
      case Lg(idx) => idx < |lg|
      case Pc(n) => n < |pc|
    }

    function Head(tag: Label): int
      requires InRange(tag)
    {
      match tag
      case Lg(idx) => lg[idx]
      case Pc(n) => pc[n]
    }

    function SetHead(tag: Label, v: int): Links
      requires InRange(tag)
    {
      match tag
      case Lg(idx) => this.(lg := lg[idx := v])
      case Pc(n) => this.(pc := pc[n := v])
    }

    function Chain(tag: Label): seq<nat> { if tag in chains then chains[tag] else [] }

    /** The chain that starts with value `v` goes through the references `c` and ends. */
    predicate Threaded(v: int, c: seq<nat>)
      decreases |c|
    {
      if c == [] then v == 0
      else
        c[0] < |log| && v == log[c[0]].pos && v > 0 && v in cells && Below(c[1..], c[0]) &&
        Threaded(cells[v], c[1..])
    }

    static predicate Below(c: seq<nat>, i: nat) { forall k {:trigger c[k]} :: 0 <= k < |c| ==> c[k] < i }

    /** Reference `i` holds the position of the label it asks for. */
    ghost predicate Settled(i: nat) {
      exists j: nat :: Binds(log, i, j) && log[i].pos in cells && cells[log[i].pos] == log[j].pos
    }

    ghost predicate LabelOk(tag: Label) {
      InRange(tag) && (forall i :: i in Chain(tag) ==> i < |log| && log[i].tag == tag) &&
      if Head(tag) < 0 then
        Chain(tag) == [] &&
        exists j :: 0 <= j < |log| && log[j] == Def(-Head(tag), tag) && NoDef(log, tag, j + 1, |log|)
      else
        Threaded(Head(tag), Chain(tag)) && (!Local(tag) ==> NoDef(log, tag, 0, |log|))
    }

    /** An event has a position of its own; a reference is settled or in the chain of
        its label. */
    ghost predicate EventOk(i: nat) {
      i < |log| && InRange(log[i].tag) && log[i].pos in cells && log[i].pos > 0 &&
      (i in Chain(log[i].tag) <==> Pending(log, i)) &&
      (log[i].Ref? ==> Settled(i) || Pending(log, i)) && (log[i].Ref? && log[i].fwd ==> Local(log[i].tag))
    }

    ghost predicate Ok() {
      (forall tag {:trigger LabelOk(tag)} :: InRange(tag) ==> LabelOk(tag)) &&
      (forall i: nat {:trigger EventOk(i)} :: i < |log| ==> EventOk(i)) &&
      (forall i, j :: 0 <= i < j < |log| ==> log[i].pos != log[j].pos)
    }

    /** No reference is kept at `q`. */
    predicate NotRef(q: nat) {
      forall i {:trigger log[i]} :: 0 <= i < |log| ==> !(log[i].Ref? && log[i].pos == q)
    }

    /** No event has its position at `q`. */
    predicate Plain(q: nat) {
      forall i {:trigger log[i]} :: 0 <= i < |log| ==> log[i].pos != q
    }

    // ----- what a step keeps -----

    /** A chain is the same chain after a step that keeps its cells. */
    lemma {:induction false} StaysThreaded(l: Links, v: int, c: seq<nat>)
      requires Threaded(v, c) && |log| <= |l.log| && l.log[..|log|] == log
      requires forall k: nat :: k in c && k < |log| && log[k].pos in cells ==>
        log[k].pos in l.cells && l.cells[log[k].pos] == cells[log[k].pos]
      ensures l.Threaded(v, c)
      decreases |c|
    {
      if c != [] {
        assert c[0] in c && l.log[c[0]] == log[c[0]];
        StaysThreaded(l, cells[v], c[1..]);
      }
    }

    lemma {:induction false} InChain(tag: Label, i: nat)
      requires Ok() && InRange(tag) && i in Chain(tag)
      ensures i < |log| && log[i].Ref? && log[i].tag == tag && Pending(log, i)
    {
      assert LabelOk(tag);
      assert EventOk(i);
    }

    /** A cell that no reference uses can change. */
    lemma {:induction false} PlainStored(q: nat, v: int)
      requires Ok() && NotRef(q)
      ensures this.(cells := cells[q := v]).Ok()
    {
      var l := this.(cells := cells[q := v]);
      forall i: nat {:trigger l.EventOk(i)} | i < |log|
        ensures l.EventOk(i)
      {
        assert EventOk(i);
        if log[i].Ref? && Settled(i) {
          var j: nat :| Binds(log, i, j) && cells[log[i].pos] == log[j].pos;
          assert l.cells[log[i].pos] == log[j].pos;
        }
      }
      forall tag {:trigger l.LabelOk(tag)} | l.InRange(tag)
        ensures l.LabelOk(tag)
      {
        assert LabelOk(tag);
        if Head(tag) >= 0 {
          forall k: nat | k in Chain(tag)
            ensures k < |log| && log[k].Ref?
          {
            InChain(tag, k);
          }
          StaysThreaded(l, Head(tag), Chain(tag));
        }
      }
    }

    // ----- references -----

    /** A reference whose label exists holds its position (putrel). */
    function Bound(pos: nat, tag: Label): Links
      requires InRange(tag)
    {
      this.(cells := cells[pos := -Head(tag)], log := log + [Ref(pos, tag, false)])
    }

    /** Any other reference is the new head of the chain of its label (linkrel). */
    function Chained(pos: nat, tag: Label, fwd: bool): Links
      requires InRange(tag)
    {
      SetHead(tag, pos).(cells := cells[pos := if Head(tag) < 0 then 0 else Head(tag)],
                         log := log + [Ref(pos, tag, fwd)], chains := chains[tag := [|log|] + Chain(tag)])
    }

    /** The other events are as they were, after one that is not their label's definition. */
    lemma {:induction false} OldEventOk(l: Links, e: Event, i: nat)
      requires Ok() && i < |log| && l.log == log + [e] && |l.lg| == |lg| && |l.pc| == |pc|
      requires log[i].pos in cells && log[i].pos in l.cells
      requires log[i].Ref? ==> l.cells[log[i].pos] == cells[log[i].pos]
      requires !(e.Def? && e.tag == log[i].tag)
      requires i in l.Chain(log[i].tag) <==> i in Chain(log[i].tag)
      ensures l.EventOk(i)
    {
      assert EventOk(i);
      NextEvent(log, e, i);
      if log[i].Ref? && Settled(i) {
        var j: nat :| Binds(log, i, j) && cells[log[i].pos] == log[j].pos;
        StaysBound(log, e, i, j);
      }
    }

    /** The other labels are as they were. */
    lemma {:induction false} OldLabelOk(l: Links, e: Event, tag: Label)
      requires Ok() && InRange(tag) && l.log == log + [e] && |l.lg| == |lg| && |l.pc| == |pc|
      requires forall i :: 0 <= i < |log| && log[i].Ref? && log[i].tag == tag ==>
        log[i].pos in cells && log[i].pos in l.cells && l.cells[log[i].pos] == cells[log[i].pos]
      requires l.Head(tag) == Head(tag) && l.Chain(tag) == Chain(tag) && !(e.Def? && e.tag == tag)
      ensures l.LabelOk(tag)
    {
      assert LabelOk(tag);
      if Head(tag) < 0 {
        var j :| 0 <= j < |log| && log[j] == Def(-Head(tag), tag) && NoDef(log, tag, j + 1, |log|);
        assert l.log[j] == log[j];
      } else {
        forall k: nat | k in Chain(tag)
          ensures k < |log| && log[k].Ref? && log[k].tag == tag
        {
          InChain(tag, k);
        }
        StaysThreaded(l, Head(tag), Chain(tag));
      }
    }

    lemma {:induction false} NewPosition(pos: nat)
      requires Ok() && pos !in cells
      ensures forall i :: 0 <= i < |log| ==> log[i].pos in cells && log[i].pos != pos
    {
      forall i | 0 <= i < |log|
        ensures log[i].pos in cells && log[i].pos != pos
      {
        assert EventOk(i);
      }
    }

    lemma {:induction false} BoundOk(pos: nat, tag: Label)
      requires Ok() && pos > 0 && pos !in cells && InRange(tag) && Head(tag) < 0
      ensures Bound(pos, tag).Ok()
    {
      var l, e := Bound(pos, tag), Ref(pos, tag, false);
      NewPosition(pos);
      assert LabelOk(tag);
      var j: nat :| j < |log| && log[j] == Def(-Head(tag), tag) && NoDef(log, tag, j + 1, |log|);
      assert l.log[j] == log[j] && l.log[|log|] == e;
      assert Binds(l.log, |log|, j);
      forall i: nat {:trigger l.EventOk(i)} | i < |l.log|
        ensures l.EventOk(i)
      {
        if i < |log| { OldEventOk(l, e, i); } else { assert !Pending(l.log, i); }
      }
      forall t {:trigger l.LabelOk(t)} | l.InRange(t)
        ensures l.LabelOk(t)
      {
        OldLabelOk(l, e, t);
      }
    }

    lemma {:induction false} ChainedOk(pos: nat, tag: Label, fwd: bool)
      requires Ok() && pos > 0 && pos !in cells && InRange(tag)
      requires if fwd then Local(tag) else !Local(tag) && Head(tag) >= 0
      ensures Chained(pos, tag, fwd).Ok()
    {
      var l, e := Chained(pos, tag, fwd), Ref(pos, tag, fwd);
      NewPosition(pos);
      assert LabelOk(tag);
      assert l.log[|log|] == e;
      ChainGrows(pos, tag, fwd);
      forall i: nat {:trigger l.EventOk(i)} | i < |l.log|
        ensures l.EventOk(i)
      {
        if i < |log| {
          OldEventOk(l, e, i);
        } else {
          assert |log| in l.Chain(tag) by { assert l.Chain(tag)[0] == |log|; }
          assert NoDef(l.log, tag, |log|, |log| + 1);
          assert fwd || NoDef(l.log, tag, 0, |log|);
        }
      }
      forall t {:trigger l.LabelOk(t)} | l.InRange(t)
        ensures l.LabelOk(t)
      {
        if t != tag { OldLabelOk(l, e, t); }
      }
    }

    lemma {:induction false} ChainGrows(pos: nat, tag: Label, fwd: bool)
      requires Ok() && pos > 0 && pos !in cells && InRange(tag)
      requires if fwd then Local(tag) else !Local(tag) && Head(tag) >= 0
      ensures Chained(pos, tag, fwd).LabelOk(tag)
    {
      var l := Chained(pos, tag, fwd);
      NewPosition(pos);
      assert LabelOk(tag);
      var c := Chain(tag);
      forall k: nat | k in c
        ensures k < |log| && log[k].Ref? && log[k].tag == tag
      {
        InChain(tag, k);
      }
      var n := if Head(tag) < 0 then 0 else Head(tag);
      assert Threaded(n, c);
      StaysThreaded(l, n, c);
      assert l.Chain(tag) == [|log|] + c && ([|log|] + c)[1..] == c;
      assert l.log[|log|] == Ref(pos, tag, fwd);
      assert forall k {:trigger c[k]} :: 0 <= k < |c| ==> c[k] in c;
      if !Local(tag) {
        assert forall k :: 0 <= k < |log| ==> l.log[k] == log[k];
        assert NoDef(l.log, tag, 0, |l.log|);
      }
    }

    /** A pending reference holds the next one of its chain, or 0. */
    lemma {:induction false} ChainCells(v: int, c: seq<nat>, i: nat)
      requires Threaded(v, c) && i in c
      ensures i < |log| && log[i].pos in cells
      ensures var n := cells[log[i].pos]; n == 0 || (n > 0 && n in cells)
      decreases |c|
    {
      if i == c[0] {
        assert Threaded(cells[v], c[1..]);
      } else {
        assert i in c[1..];
        ChainCells(cells[v], c[1..], i);
      }
    }

    // ----- definitions -----

    /** Every cell of a chain set to `v`. */
    function Collapsed(c: seq<nat>, v: int): (l: Links)
      requires forall k {:trigger c[k]} :: 0 <= k < |c| ==> c[k] < |log|
      ensures l == this.(cells := l.cells)
      decreases |c|
    {
      if c == [] then this else this.(cells := cells[log[c[0]].pos := v]).Collapsed(c[1..], v)
    }

    /** Collapsing changes the cells of the chain and nothing else. */
    lemma {:induction false} CollapsedIs(c: seq<nat>, v: int)
      requires forall k {:trigger c[k]} :: 0 <= k < |c| ==> c[k] < |log| && log[c[k]].pos in cells
      ensures var l := Collapsed(c, v);
        l == this.(cells := l.cells) && l.cells.Keys == cells.Keys &&
        (forall i :: i in c ==> l.cells[log[i].pos] == v) &&
        (forall q :: q in cells && (forall i :: i in c ==> log[i].pos != q) ==> l.cells[q] == cells[q])
      decreases |c|
    {
      if c != [] {
        var l := this.(cells := cells[log[c[0]].pos := v]);
        l.CollapsedIs(c[1..], v);
        var m := l.Collapsed(c[1..], v);
        assert forall i :: i in c[1..] ==> i in c;
        if forall i :: i in c[1..] ==> log[i].pos != log[c[0]].pos {
          assert m.cells[log[c[0]].pos] == v;
        } else {
          var i :| i in c[1..] && log[i].pos == log[c[0]].pos;
          assert m.cells[log[i].pos] == v;
        }
      }
    }

    /** A definition of the label at `pos`, with the offset `ofs` (putlabel). */
    function Defined(pos: nat, tag: Label, ofs: int): Links
      requires InRange(tag)
      requires forall k {:trigger Chain(tag)[k]} :: 0 <= k < |Chain(tag)| ==> Chain(tag)[k] < |log|
    {
      var l := Collapsed(Chain(tag), pos).SetHead(tag, Neg(pos));
      l.(cells := l.cells[pos := ofs], log := log + [Def(pos, tag)], chains := chains[tag := []])
    }

    lemma {:induction false} ChainMembers(tag: Label)
      requires Ok() && InRange(tag)
      ensures var c := Chain(tag);
        forall k {:trigger c[k]} :: 0 <= k < |c| ==>
          c[k] < |log| && log[c[k]].Ref? && log[c[k]].tag == tag && log[c[k]].pos in cells
    {
      var c := Chain(tag);
      forall k {:trigger c[k]} | 0 <= k < |c|
        ensures c[k] < |log| && log[c[k]].Ref? && log[c[k]].tag == tag && log[c[k]].pos in cells
      {
        assert c[k] in c;
        InChain(tag, c[k]);
        assert EventOk(c[k]);
      }
    }

    /** A definition changes the cells of the references that were waiting for it. */
    lemma {:induction false} DefinedCells(pos: nat, tag: Label, ofs: int)
      requires Ok() && pos > 0 && pos !in cells && InRange(tag)
      ensures forall k {:trigger Chain(tag)[k]} :: 0 <= k < |Chain(tag)| ==> Chain(tag)[k] < |log|
      ensures var l := Defined(pos, tag, ofs);
        l.cells.Keys == cells.Keys + {pos} && l.cells[pos] == ofs &&
        (forall i {:trigger log[i]} :: 0 <= i < |log| ==>
           log[i].pos in cells &&
           l.cells[log[i].pos] == if i in Chain(tag) then pos else cells[log[i].pos]) &&
        (forall q :: q in cells && NotRef(q) ==> l.cells[q] == cells[q])
    {
      ChainMembers(tag);
      NewPosition(pos);
      var c := Chain(tag);
      CollapsedIs(c, pos);
      forall i {:trigger log[i]} | 0 <= i < |log|
        ensures log[i].pos in cells
        ensures Defined(pos, tag, ofs).cells[log[i].pos] == if i in c then pos else cells[log[i].pos]
      {
        assert EventOk(i);
      }
    }

    lemma {:induction false} DefinedEventOk(pos: nat, tag: Label, ofs: int, i: nat)
      requires Ok() && pos > 0 && pos !in cells && InRange(tag) && i < |log|
      ensures forall k {:trigger Chain(tag)[k]} :: 0 <= k < |Chain(tag)| ==> Chain(tag)[k] < |log|
      ensures Defined(pos, tag, ofs).EventOk(i)
    {
      DefinedCells(pos, tag, ofs);
      var l, e := Defined(pos, tag, ofs), Def(pos, tag);
      assert EventOk(i) && LabelOk(tag);
      assert l.log[i] == log[i] && l.log[|log|] == e;
      if log[i].tag == tag {
        NextEvent(log, e, i);
        if log[i].Ref? && Settled(i) {
          var j: nat :| Binds(log, i, j) && cells[log[i].pos] == log[j].pos;
          StaysBound(log, e, i, j);
          PendingNotSettled(i, j);
        }
      } else {
        OldEventOk(l, e, i);
      }
    }

    lemma {:induction false} PendingNotSettled(i: nat, j: nat)
      requires Binds(log, i, j)
      ensures !Pending(log, i)
    {
    }

    lemma {:induction false} DefinedOk(pos: nat, tag: Label, ofs: int)
      requires Ok() && pos > 0 && pos !in cells && InRange(tag)
      ensures forall k {:trigger Chain(tag)[k]} :: 0 <= k < |Chain(tag)| ==> Chain(tag)[k] < |log|
      ensures Defined(pos, tag, ofs).Ok()
    {
      DefinedCells(pos, tag, ofs);
      NewPosition(pos);
      var l, e := Defined(pos, tag, ofs), Def(pos, tag);
      assert l.log[|log|] == e;
      forall i: nat {:trigger l.EventOk(i)} | i < |l.log|
        ensures l.EventOk(i)
      {
        if i < |log| { DefinedEventOk(pos, tag, ofs, i); }
      }
      forall t {:trigger l.LabelOk(t)} | l.InRange(t)
        ensures l.LabelOk(t)
      {
        if t != tag {
          assert LabelOk(t) && LabelOk(tag);
          OldLabelOk(l, e, t);
        } else {
          assert NoDef(l.log, tag, |log| + 1, |l.log|);
        }
      }
    }

    /** Replacing the head of a chain leaves the rest threaded. */
    lemma {:induction false} HeadReplaced(c: seq<nat>, v: int)
      requires c != [] && c[0] < |log| && Threaded(log[c[0]].pos, c)
      requires forall i, j :: 0 <= i < j < |log| ==> log[i].pos != log[j].pos
      ensures this.(cells := cells[log[c[0]].pos := v]).Threaded(cells[log[c[0]].pos], c[1..])
    {
      var l := this.(cells := cells[log[c[0]].pos := v]);
      forall k: nat | k in c[1..] && k < |log| && log[k].pos in cells
        ensures l.cells[log[k].pos] == cells[log[k].pos]
      {
        var j :| 0 <= j < |c[1..]| && c[1..][j] == k;
        assert k < c[0];
      }
      StaysThreaded(l, cells[log[c[0]].pos], c[1..]);
    }

    // ----- growth -----

    /** In `l` more was put: cells that no reference uses are as they were. */
    ghost predicate Extends(l: Links) {
      |l.lg| == |lg| && |l.pc| == |pc| && log <= l.log &&
      (forall q :: q in cells ==> q in l.cells) &&
      (forall q {:trigger Plain(q)} {:trigger l.Plain(q)} :: q in cells && Plain(q) ==> l.Plain(q)) &&
      forall q {:trigger NotRef(q)} {:trigger l.NotRef(q)} :: q in cells && NotRef(q) ==>
        l.NotRef(q) && l.cells[q] == cells[q]
    }

    lemma {:induction false} ExtendsFurther(l: Links, m: Links)
      requires Extends(l) && l.Extends(m)
      ensures Extends(m)
    {
    }

    lemma {:induction false} BoundExtends(pos: nat, tag: Label)
      requires Ok() && pos !in cells && InRange(tag)
      ensures Extends(Bound(pos, tag))
    {
    }

    lemma {:induction false} ChainedExtends(pos: nat, tag: Label, fwd: bool)
      requires Ok() && pos !in cells && InRange(tag)
      ensures Extends(Chained(pos, tag, fwd))
    {
    }

    lemma {:induction false} DefinedExtends(pos: nat, tag: Label, ofs: int)
      requires Ok() && pos > 0 && pos !in cells && InRange(tag)
      ensures forall k {:trigger Chain(tag)[k]} :: 0 <= k < |Chain(tag)| ==> Chain(tag)[k] < |log|
      ensures Extends(Defined(pos, tag, ofs)) && Defined(pos, tag, ofs).NotRef(pos)
    {
      DefinedCells(pos, tag, ofs);
      NewPosition(pos);
    }

    lemma {:induction false} StoredExtends(pos: nat, v: int)
      requires Ok() && pos !in cells
      ensures Extends(this.(cells := cells[pos := v])) && Plain(pos) && NotRef(pos)
    {
      NewPosition(pos);
    }

    // ----- undefined globals -----

    /** In `l` the references to undefined globals from index `from` up to `to` are
        marked, and nothing else differs from this. */
    ghost predicate Marks(l: Links, from: nat, to: nat) {
      l == this.(cells := l.cells) && l.cells.Keys == cells.Keys &&
      (forall i {:trigger log[i]} :: 0 <= i < |log| && log[i].Ref? && log[i].pos in cells ==>
         l.cells[log[i].pos] ==
         if Pending(log, i) && log[i].tag.Lg? && from <= log[i].tag.idx < to then Neg(log[i].tag.idx)
         else cells[log[i].pos]) &&
      (forall q {:trigger NotRef(q)} :: q in cells && NotRef(q) ==> l.cells[q] == cells[q])
    }

    /** One more undefined global marked. */
    lemma {:induction false} MarksNext(l: Links, from: nat, to: nat)
      requires Ok() && Marks(l, from, to) && from <= to < |lg| && lg[to] >= 0
      ensures forall k {:trigger Chain(Lg(to))[k]} :: 0 <= k < |Chain(Lg(to))| ==> Chain(Lg(to))[k] < |log|
      ensures l.Threaded(lg[to], Chain(Lg(to)))
      ensures Marks(l.Collapsed(Chain(Lg(to)), Neg(to)), from, to + 1)
    {
      var c := Chain(Lg(to));
      ChainMembers(Lg(to));
      l.CollapsedIs(c, Neg(to));
      assert LabelOk(Lg(to));
      forall k: nat | k in c && k < |log| && log[k].pos in cells
        ensures l.cells[log[k].pos] == cells[log[k].pos]
      {
        InChain(Lg(to), k);
      }
      StaysThreaded(l, lg[to], c);
      var m := l.Collapsed(c, Neg(to));
      forall i {:trigger log[i]} | 0 <= i < |log| && log[i].Ref? && log[i].pos in cells
        ensures m.cells[log[i].pos] ==
          if Pending(log, i) && log[i].tag.Lg? && from <= log[i].tag.idx < to + 1 then Neg(log[i].tag.idx)
          else cells[log[i].pos]
      {
        assert EventOk(i);
      }
    }

    /** A global that is defined has nothing to mark. */
    lemma {:induction false} MarksDefined(l: Links, from: nat, to: nat)
      requires Ok() && Marks(l, from, to) && from <= to < |lg| && lg[to] < 0
      ensures Marks(l, from, to + 1)
    {
      assert LabelOk(Lg(to));
      forall i {:trigger log[i]} | 0 <= i < |log| && log[i].Ref? && log[i].pos in cells
        ensures l.cells[log[i].pos] ==
          if Pending(log, i) && log[i].tag.Lg? && from <= log[i].tag.idx < to + 1 then Neg(log[i].tag.idx)
          else cells[log[i].pos]
      {
        assert EventOk(i);
      }
    }
  }

  // ----- the label arrays in place -----

  /** Nothing is put, and every label is unused. */
  function NoLinks(maxgl: nat, maxpc: nat): Links {
    Links(map[], seq(10 + maxgl, i => 0), seq(maxpc, i => 0), [], map[])
  }

  class LabelTable {
    var cells: map<nat, int>     // the section buffers, by biased position
    var lglabels: seq<int>
    var pclabels: seq<int>
    ghost var log: seq<Event>
    ghost var chains: map<Label, seq<nat>>

    ghost function View(): Links
      reads this
    {
      Links(cells, lglabels, pclabels, log, chains)
    }

    /** dasm_init, dasm_setupglobal, dasm_growpc and dasm_setup */
    constructor (maxgl: nat, maxpc: nat)
      ensures View().Ok() && View() == NoLinks(maxgl, maxpc)
    {
      cells, log, chains := map[], [], map[];
      lglabels := seq(10 + maxgl, i => 0);
      pclabels := seq(maxpc, i => 0);
    }

    /** Stores a value that is not a reference. */
    method Store(q: nat, v: int)
      requires View().Ok() && View().NotRef(q)
      modifies this`cells
      ensures View() == old(View()).(cells := old(cells)[q := v]) && View().Ok()
    {
      View().PlainStored(q, v);
      cells := cells[q := v];
    }

    /** A reference to a label that may be defined already (putrel). */
    method PutRel(pos: nat, tag: Label)
      requires View().Ok() && pos > 0 && pos !in cells && View().InRange(tag)
      requires Local(tag) ==> View().Head(tag) < 0
      modifies this
      ensures View().Ok()
      ensures View() == if old(View()).Head(tag) < 0 then old(View()).Bound(pos, tag)
                        else old(View()).Chained(pos, tag, false)
    {
      var n := match tag case Lg(idx) => lglabels[idx] case Pc(k) => pclabels[k];
      if n < 0 {
        View().BoundOk(pos, tag);
        cells := cells[pos := -n];
        log := log + [Ref(pos, tag, false)];
      } else {
        LinkRel(pos, tag, n, false);
      }
    }

    /** A reference to the next definition of a local label. */
    method PutForward(pos: nat, idx: nat)
      requires View().Ok() && pos > 0 && pos !in cells && idx < 10 && idx < |lglabels|
      modifies this
      ensures View().Ok() && View() == old(View()).Chained(pos, Lg(idx), true)
    {
      var n := lglabels[idx];
      if n < 0 { n := 0; }
      LinkRel(pos, Lg(idx), n, true);
    }

    /** The new head of a chain (linkrel). */
    method LinkRel(pos: nat, tag: Label, n: int, ghost fwd: bool)
      requires View().Ok() && pos > 0 && pos !in cells && View().InRange(tag)
      requires n == if View().Head(tag) < 0 then 0 else View().Head(tag)
      requires if fwd then Local(tag) else !Local(tag) && View().Head(tag) >= 0
      modifies this
      ensures View().Ok() && View() == old(View()).Chained(pos, tag, fwd)
    {
      View().ChainedOk(pos, tag, fwd);
      cells := cells[pos := n];
      SetLabel(tag, pos);
      chains := chains[tag := [|log|] + View().Chain(tag)];
      log := log + [Ref(pos, tag, fwd)];
    }

    method SetLabel(tag: Label, v: int)
      requires View().InRange(tag)
      modifies this`lglabels, this`pclabels
      ensures View() == old(View()).SetHead(tag, v)
    {
      match tag {
        case Lg(idx) => lglabels := lglabels[idx := v];
        case Pc(k) => pclabels := pclabels[k := v];
      }
    }

    /** A definition: collapses the chain of the label (putlabel). */
    method PutLabel(pos: nat, tag: Label, ofs: int)
      requires View().Ok() && pos > 0 && pos !in cells && View().InRange(tag)
      modifies this
      ensures View().Ok()
      ensures forall k {:trigger old(View()).Chain(tag)[k]} ::
        0 <= k < |old(View()).Chain(tag)| ==> old(View()).Chain(tag)[k] < |old(log)|
      ensures View() == old(View()).Defined(pos, tag, ofs)
    {
      View().DefinedOk(pos, tag, ofs);
      assert View().LabelOk(tag);
      View().ChainMembers(tag);
      var n := match tag case Lg(idx) => lglabels[idx] case Pc(k) => pclabels[k];
      Collapse(n, pos, View().Chain(tag));
      SetLabel(tag, Neg(pos));
      cells := cells[pos := ofs];
      log := log + [Def(pos, tag)];
      chains := chains[tag := []];
    }

    /** Sets every cell of the chain that starts with `n`. */
    method Collapse(n: int, v: int, ghost c: seq<nat>)
      requires n > 0 ==> View().Threaded(n, c)
      requires n <= 0 ==> c == []
      requires forall k {:trigger c[k]} :: 0 <= k < |c| ==> c[k] < |log|
      requires forall i, j :: 0 <= i < j < |log| ==> log[i].pos != log[j].pos
      modifies this`cells
      ensures View() == old(View()).Collapsed(c, v)
    {
      var m := n;
      ghost var rest: seq<nat> := c;
      ghost var target := View().Collapsed(c, v);
      while m > 0
        invariant m > 0 ==> View().Threaded(m, rest)
        invariant m <= 0 ==> rest == []
        invariant forall k {:trigger rest[k]} :: 0 <= k < |rest| ==> rest[k] < |log|
        invariant View().Collapsed(rest, v) == target
        decreases |rest|
      {
        ghost var was := View();
        was.HeadReplaced(rest, v);
        assert rest != [] && log[rest[0]].pos == m;
        m, cells := cells[m], cells[m := v];
        rest := rest[1..];
      }
    }

    /** The undefined globals of dasm_link, from index `from` on. */
    method MarkUndefined(from: nat)
      requires View().Ok()
      modifies this`cells
      ensures old(View()).Marks(View(), from, if from < |lglabels| then |lglabels| else from)
    {
      var idx := from;
      while idx < |lglabels|
        invariant from <= idx && (idx <= |lglabels| || idx == from) && old(View()).Marks(View(), from, idx)
      {
        var n := lglabels[idx];
        if n < 0 {
          old(View()).MarksDefined(View(), from, idx);
        } else {
          old(View()).MarksNext(View(), from, idx);
          Collapse(n, Neg(idx), View().Chain(Lg(idx)));
        }
        idx := idx + 1;
      }
    }
  }
}
