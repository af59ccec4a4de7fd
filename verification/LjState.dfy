/** The whole heap of lj_alloc.c as a value, its invariant, and the steps that the
    allocator's operations are made of. Between steps a free chunk may be `loose`: out
    of its bin, and not yet in use, merged or binned again. */
module LjState {
  import opened LjTree
  import opened LjHeap
  import opened LjBins

  datatype Heap = Heap(l: Layout, b: Bins, dv: nat, dvsize: nat)
  {
    predicate IsDv(p: nat) { dvsize != 0 && p == dv }

    predicate DvOk() {
      if dvsize == 0 then dv == 0 else l.Free(dv) && l.Size(dv) == dvsize
    }

    /** The chunks tile the arena; every free chunk but the top is the designated
        victim, or loose, or in the bin for its size, and bins hold nothing else. */
    ghost predicate Inv(loose: set<nat>) {
      l.Ok() && b.Ok() && DvOk() &&
      (forall p {:trigger l.Even(p)} :: p in l.starts ==> l.Even(p)) &&
      (forall p :: p in loose ==> l.Free(p) && !IsDv(p)) &&
      (forall p: nat, s: nat {:trigger b.Holds(p, s)} ::
         b.Holds(p, s) ==> l.Free(p) && l.Size(p) == s && p !in loose && !IsDv(p)) &&
      (forall p: nat {:trigger l.Free(p)} ::
         l.Free(p) && p !in loose && !IsDv(p) ==> b.Holds(p, l.Size(p)))
    }

    /** Apart from `p`, the same chunks are in use, with the same sizes. */
    ghost predicate SameUsed(h: Heap, p: nat) {
      forall q: nat {:trigger h.l.Used(q)} ::
        q != p ==> (h.l.Used(q) <==> l.Used(q)) && (l.Used(q) ==> h.l.Size(q) == l.Size(q))
    }

    lemma {:induction false} BaseFirst()
      requires Inv({})
      ensures forall p: nat {:trigger l.Used(p)} :: l.Used(p) ==> p >= l.base
    {
      forall p: nat {:trigger l.Used(p)} | l.Used(p)
        ensures p >= l.base
      {
        l.About(p);
      }
    }

    // ----- bins -----

    lemma {:induction false} Unlinked(p: nat, loose: set<nat>)
      requires Inv(loose) && l.Free(p) && p !in loose && !IsDv(p)
      ensures b.Holds(p, l.Size(p)) && l.Size(p) < SIZE_LIMIT
      ensures this.(b := b.RemoveChunk(p, l.Size(p))).Inv(loose + {p})
    {
      l.About(p);
      b.RemoveChunkIs(p, l.Size(p));
    }

    lemma {:induction false} Binned(p: nat, loose: set<nat>)
      requires Inv(loose) && p in loose
      ensures this.(b := b.InsertChunk(p, l.Size(p))).Inv(loose - {p})
    {
      l.About(p);
      assert l.Even(p);
      b.InsertChunkIs(p, l.Size(p));
    }

    lemma {:induction false} DvDropped(loose: set<nat>)
      requires Inv(loose) && dvsize != 0
      ensures this.(dv := 0, dvsize := 0).Inv(loose + {dv})
    {
    }

    lemma {:induction false} DvMade(p: nat, loose: set<nat>)
      requires Inv(loose) && p in loose && dvsize == 0
      ensures this.(dv := p, dvsize := l.Size(p)).Inv(loose - {p})
    {
      l.About(p);
    }

    // ----- layout -----

    /** The free chunks outside of `from` and `to` are the same in both layouts; those
        of `from` are gone, and those of `to` are new, unless in both. */
    ghost predicate Reshapes(l': Layout, from: set<nat>, to: set<nat>) {
      l'.Ok() &&
      (forall p: nat {:trigger l'.Free(p)} :: p !in from && p !in to ==>
         (l'.Free(p) <==> l.Free(p)) && (l.Free(p) ==> l'.Size(p) == l.Size(p))) &&
      (forall p :: p in from && p !in to ==> !l'.Free(p)) &&
      (forall p :: p in to && p !in from ==> !l.Free(p)) &&
      (forall p :: p in to ==> l'.Free(p))
    }

    lemma {:induction false} Reshaped(l': Layout, loose: set<nat>, loose': set<nat>)
      requires Inv(loose) && Reshapes(l', loose, loose')
      requires forall p {:trigger l'.Even(p)} :: p in l'.starts ==> l'.Even(p)
      ensures this.(l := l').Inv(loose')
    {
      var h := this.(l := l');
      forall p: nat, s: nat {:trigger b.Holds(p, s)} | b.Holds(p, s)
        ensures l'.Free(p) && l'.Size(p) == s && p !in loose' && !IsDv(p)
      {
        assert l.Free(p);
      }
      forall p: nat {:trigger l'.Free(p)} | l'.Free(p) && p !in loose' && !h.IsDv(p)
        ensures b.Holds(p, l'.Size(p))
      {
        assert l.Free(p);
      }
    }

    /** A loose chunk goes into use as a whole. */
    lemma {:induction false} TakenWhole(p: nat, loose: set<nat>)
      requires Inv(loose) && p in loose
      ensures l.Next(p) in l.head
      ensures var h := this.(l := l.Taken(p));
        h.Inv(loose - {p}) && SameUsed(h, p) && h.l.Used(p) && h.l.Size(p) == l.Size(p)
    {
      l.FreeHasUsedNeighbours(p);
      l.TakenOk(p);
      var h := this.(l := l.Taken(p));
      forall q {:trigger h.l.Even(q)} | q in h.l.starts
        ensures h.l.Even(q)
      {
        assert l.Even(q);
      }
      Reshaped(l.Taken(p), loose, loose - {p});
    }

    // ----- splitting a free chunk -----

    lemma {:induction false} SplitEven(p: nat, n: nat, loose: set<nat>, q: nat)
      requires Inv(loose) && l.CanSplit(p, n) && n % 8 == 0 && q in l.Split(p, n).starts
      ensures l.Split(p, n).Even(q)
    {
      assert l.Even(p);
      if q != p + n { assert l.Even(q); }
    }

    lemma {:induction false} SplitStep(p: nat, n: nat, loose: set<nat>)
      requires Inv(loose) && l.CanSplit(p, n) && !l.head[p].cinuse && n % 8 == 0
      ensures var h := this.(l := l.Split(p, n));
        h.l.Ok() && SameUsed(h, p) && h.l.Used(p) && h.l.Size(p) == n && !l.Used(p) &&
        h.l.Size(p + n) == l.Size(p) - n && p + n !in l.starts &&
        forall q {:trigger h.l.Even(q)} :: q in h.l.starts ==> h.l.Even(q)
    {
      l.About(p);
      l.NotInside(p, p + n);
      l.SplitOk(p, n);
      hide Layout.Even;
      var h := this.(l := l.Split(p, n));
      forall q: nat {:trigger h.l.Used(q)} | q != p
        ensures (h.l.Used(q) <==> l.Used(q)) && (l.Used(q) ==> h.l.Size(q) == l.Size(q))
      {
        l.SplitUses(p, n, q);
      }
      forall q {:trigger h.l.Even(q)} | q in h.l.starts
        ensures h.l.Even(q)
      {
        SplitEven(p, n, loose, q);
      }
    }

    /** The first part of a loose chunk goes into use, the rest is loose. */
    lemma {:induction false} TakenPart(p: nat, n: nat, loose: set<nat>)
      requires Inv(loose) && p in loose && MIN_CHUNK_SIZE <= n && n % 8 == 0
      requires n + MIN_CHUNK_SIZE <= l.Size(p)
      ensures var h := this.(l := l.Split(p, n));
        h.Inv(loose - {p} + {p + n}) && SameUsed(h, p) && h.l.Used(p) && h.l.Size(p) == n &&
        h.l.Size(p + n) == l.Size(p) - n
    {
      SplitStep(p, n, loose);
      l.About(p);
      forall q: nat {:trigger l.Split(p, n).Free(q)} | q != p && q != p + n
        ensures (l.Split(p, n).Free(q) <==> l.Free(q)) && (l.Free(q) ==> l.Split(p, n).Size(q) == l.Size(q))
      {
        l.SplitFree(p, n, q);
      }
      Reshaped(l.Split(p, n), loose, loose - {p} + {p + n});
    }

    lemma {:induction false} TakenFromTop(n: nat, loose: set<nat>)
      requires Inv(loose) && MIN_CHUNK_SIZE <= n && n % 8 == 0 && n < l.Size(l.top)
      ensures var p, h := l.top, this.(l := l.Split(l.top, n));
        h.Inv(loose) && SameUsed(h, p) && h.l.Used(p) && h.l.Size(p) == n && !l.Used(p) &&
        h.l.top == p + n && h.l.Size(p + n) == l.Size(p) - n
    {
      SplitStep(l.top, n, loose);
      l.About(l.top);
      var l' := l.Split(l.top, n);
      forall q: nat {:trigger l'.Free(q)}
        ensures (l'.Free(q) <==> l.Free(q)) && (l.Free(q) ==> l'.Size(q) == l.Size(q))
      {
        l.SplitFree(l.top, n, q);
      }
      Reshaped(l', loose, loose);
    }

    // ----- splitting and growing a chunk in use -----

    lemma {:induction false} UsedSplitEven(p: nat, n: nat, loose: set<nat>, q: nat)
      requires Inv(loose) && l.Used(p) && l.CanSplit(p, n) && n % 8 == 0 && q in l.SplitUsed(p, n).starts
      ensures l.SplitUsed(p, n).Even(q)
    {
      assert l.Even(p);
      if q != p + n { assert l.Even(q); }
    }

    /** A chunk in use gives its end away, as another chunk in use. */
    lemma {:induction false} UsedSplit(p: nat, n: nat, loose: set<nat>)
      requires Inv(loose) && l.Used(p) && MIN_CHUNK_SIZE <= n && n % 8 == 0
      requires n + MIN_CHUNK_SIZE <= l.Size(p)
      ensures var h := this.(l := l.SplitUsed(p, n));
        h.Inv(loose) && h.l.Used(p) && h.l.Size(p) == n && h.l.Used(p + n) && !l.Used(p + n) &&
        h.l.Size(p + n) == l.Size(p) - n &&
        forall q: nat {:trigger h.l.Used(q)} :: q != p && q != p + n ==>
          (h.l.Used(q) <==> l.Used(q)) && (l.Used(q) ==> h.l.Size(q) == l.Size(q))
    {
      l.About(p);
      l.NotInside(p, p + n);
      l.SplitUsedOk(p, n);
      var l' := l.SplitUsed(p, n);
      forall q {:trigger l'.Even(q)} | q in l'.starts
        ensures l'.Even(q)
      {
        UsedSplitEven(p, n, loose, q);
      }
      forall q: nat {:trigger l'.Free(q)}
        ensures (l'.Free(q) <==> l.Free(q)) && (l.Free(q) ==> l'.Size(q) == l.Size(q))
      {
        l.SplitUsedFree(p, n, q);
      }
      Reshaped(l', loose, loose);
    }

    lemma {:induction false} TopMovedEven(p: nat, n: nat, loose: set<nat>, q: nat)
      requires Inv(loose) && l.Used(p) && l.Next(p) == l.top && n % 8 == 0
      requires l.top < p + n < l.end && q in l.TopMoved(p, n).starts
      ensures l.TopMoved(p, n).Even(q)
    {
      assert l.Even(p);
      EndEven(l.end);
      if q != p + n { assert l.Even(q); }
    }

    /** A chunk in use grows into the top. */
    lemma {:induction false} GrownIntoTop(p: nat, n: nat, loose: set<nat>)
      requires Inv(loose) && l.Used(p) && l.Next(p) == l.top && n % 8 == 0
      requires l.top < p + n < l.end
      ensures var h := this.(l := l.TopMoved(p, n));
        h.Inv(loose) && SameUsed(h, p) && h.l.Used(p) && h.l.Size(p) == n
    {
      l.About(p);
      l.About(l.top);
      l.NotInside(l.top, p + n);
      l.TopMovedOk(p, n);
      var l' := l.TopMoved(p, n);
      forall q {:trigger l'.Even(q)} | q in l'.starts
        ensures l'.Even(q)
      {
        TopMovedEven(p, n, loose, q);
      }
      forall q: nat {:trigger l'.Free(q)}
        ensures (l'.Free(q) <==> l.Free(q)) && (l.Free(q) ==> l'.Size(q) == l.Size(q))
      {
        l.TopMovedFree(p, n, q);
      }
      Reshaped(l', loose, loose);
    }

    // ----- freeing -----

    /** `p` is in use, and all else in the stretch [a, e) is loose, or the top. */
    ghost predicate Freeing(p: nat, a: nat, e: nat, loose: set<nat>) {
      Inv(loose) && l.Used(p) && l.CanMerge(a, e) && a <= p < e &&
      (forall q :: q in loose ==> a <= q < e) &&
      (forall q :: q in l.starts && a <= q < e ==> q == p || q in loose || q == l.top)
    }

    lemma {:induction false} MergedReshapes(p: nat, a: nat, e: nat, loose: set<nat>)
      requires Freeing(p, a, e, loose)
      ensures Reshapes(l.Merged(a, e), loose, if e == l.end then {} else {a})
    {
      l.MergedEnds(a, e);
      l.MergedOk(a, e);
      l.About(a);
      if e != l.end { l.About(e); }
      var l' := l.Merged(a, e);
      forall q: nat {:trigger l'.Free(q)} | q !in loose && !(q == a && e != l.end)
        ensures (l'.Free(q) <==> l.Free(q)) && (l.Free(q) ==> l'.Size(q) == l.Size(q))
      {
        if a <= q < e {
          assert !l.Free(q) && !l'.Free(q);
        } else {
          l.MergedOutside(a, e, q);
        }
      }
      forall q | q in loose && !(q == a && e != l.end)
        ensures !l'.Free(q)
      {
        assert a <= q < e;
      }
      hide Inv, Layout.Ok;
    }

    lemma {:induction false} MergedUses(p: nat, a: nat, e: nat, loose: set<nat>)
      requires Freeing(p, a, e, loose)
      ensures var h := this.(l := l.Merged(a, e));
        SameUsed(h, p) && !h.l.Used(p) && (e == l.end <==> h.l.top == a) && h.l.Size(a) == e - a
    {
      l.MergedEnds(a, e);
      l.About(a);
      if e != l.end { l.About(e); }
    }

    /** A chunk in use and the loose chunks beside it merge into one free chunk. */
    lemma {:induction false} FreedMerged(p: nat, a: nat, e: nat, loose: set<nat>)
      requires Freeing(p, a, e, loose)
      ensures var h := this.(l := l.Merged(a, e));
        h.Inv(if e == l.end then {} else {a}) && SameUsed(h, p) && !h.l.Used(p) &&
        (e == l.end <==> h.l.top == a) && h.l.Size(a) == e - a
    {
      var h, loose' := this.(l := l.Merged(a, e)), if e == l.end then {} else {a};
      l.MergedEnds(a, e);
      MergedUses(p, a, e, loose);
      MergedReshapes(p, a, e, loose);
      forall q {:trigger h.l.Even(q)} | q in h.l.starts
        ensures h.l.Even(q)
      {
        MergedEven(p, a, e, loose, q);
      }
      Reshaped(h.l, loose, loose');
    }

    lemma {:induction false} MergedEven(p: nat, a: nat, e: nat, loose: set<nat>, q: nat)
      requires Freeing(p, a, e, loose) && q in l.Merged(a, e).starts
      ensures l.Merged(a, e).Even(q)
    {
      l.MergedEnds(a, e);
      assert l.Even(a) && l.Even(q);
      if q == a { EndEven(e); }
    }

    lemma {:induction false} EndEven(e: nat)
      requires l.Ok() && (forall p {:trigger l.Even(p)} :: p in l.starts ==> l.Even(p))
      requires e == l.end || e in l.starts
      ensures e % 8 == 0
    {
      l.About(l.top);
      assert l.Even(l.top);
      if e != l.end { assert l.Even(e); }
    }

    /** Takes a free chunk out of its bin, or out of its role as the designated victim. */
    function Loosen(q: nat): Heap
      requires q in l.head && |b.smallbins| == NSMALLBINS && |b.treebins| == NTREEBINS
    {
      if IsDv(q) then this.(dv := 0, dvsize := 0) else this.(b := b.RemoveChunk(q, l.Size(q)))
    }

    lemma {:induction false} Loosened(q: nat, loose: set<nat>)
      requires Inv(loose) && l.Free(q) && q !in loose
      ensures Loosen(q).Inv(loose + {q})
    {
      if IsDv(q) { DvDropped(loose); } else { Unlinked(q, loose); }
    }

    predicate Spans(p: nat) {
      p in l.head && l.Next(p) in l.head && l.Left(p) in l.head &&
      |b.smallbins| == NSMALLBINS && |b.treebins| == NTREEBINS
    }

    /** A free chunk before `p` loosened. */
    function LooseLeft(p: nat): Heap
      requires Spans(p)
    {
      if l.head[p].pinuse then this else Loosen(l.Left(p))
    }

    /** The free neighbours of `p` loosened. */
    function Around(p: nat): Heap
      requires Spans(p)
    {
      if l.head[l.Next(p)].cinuse || l.Next(p) == l.top then LooseLeft(p) else LooseLeft(p).Loosen(l.Next(p))
    }

    ghost function FreeAround(p: nat): set<nat>
      requires l.Used(p) && l.Next(p) in l.head
    {
      (if l.head[p].pinuse then {} else {l.Left(p)}) +
      (if l.head[l.Next(p)].cinuse || l.Next(p) == l.top then {} else {l.Next(p)})
    }

    lemma {:induction false} AroundFreeing(p: nat)
      requires Inv({}) && l.Used(p)
      ensures Spans(p) && Around(p).l == l && Around(p).Freeing(p, l.Left(p), l.Right(p), FreeAround(p))
    {
      l.Neighbours(p);
      l.RightEnds(p);
      l.Stretch(p);
      var a, n := l.Left(p), l.Next(p);
      var h := this;
      var loose := {};
      if !l.head[p].pinuse {
        Loosened(a, {});
        h, loose := Loosen(a), {} + {a};
      }
      if !l.head[n].cinuse && n != l.top {
        h.Loosened(n, loose);
        loose := loose + {n};
      }
      assert loose == FreeAround(p);
    }

    /** A loose chunk becomes the designated victim, or is binned. */
    function Settle(a: nat, s: nat, victim: bool): Heap
      requires |b.smallbins| == NSMALLBINS && |b.treebins| == NTREEBINS
    {
      if victim then this.(dv := a, dvsize := s) else this.(b := b.InsertChunk(a, s))
    }

    lemma {:induction false} Settles(a: nat, s: nat, victim: bool)
      requires Inv({a}) && l.Size(a) == s && (victim ==> dvsize == 0)
      ensures Settle(a, s, victim).Inv({})
    {
      if victim { DvMade(a, {a}); } else { Binned(a, {a}); }
      assert {a} - {a} == {};
    }

    /** `p` merged with its free neighbours. */
    function Joined(p: nat): Heap
      requires Spans(p)
    {
      Around(p).(l := l.Merged(l.Left(p), l.Right(p)))
    }

    lemma {:induction false} JoinedInv(p: nat)
      requires Inv({}) && l.Used(p)
      ensures Spans(p) && l.Left(p) in Joined(p).l.head
      ensures var a, e, h := l.Left(p), l.Right(p), Joined(p);
        h.Inv(if e == l.end then {} else {a}) && h.l.Size(a) == e - a && SameUsed(h, p) && !h.l.Used(p)
    {
      AroundFreeing(p);
      l.RightEnds(p);
      Around(p).FreedMerged(p, l.Left(p), l.Right(p), FreeAround(p));
    }

    lemma {:induction false} VictimJoins(p: nat)
      requires Inv({}) && l.Used(p)
      ensures Spans(p)
      ensures IsDv(l.Left(p)) || IsDv(l.Next(p)) ==> Joined(p).dvsize == 0
    {
      l.Neighbours(p);
      l.RightEnds(p);
    }

    /** The heap after `p` is freed: the merged chunk is the top, the designated victim
        if that is in it, or binned. */
    function Freed(p: nat): Heap
      requires Spans(p)
    {
      var a, e := l.Left(p), l.Right(p);
      if e == l.end then Joined(p) else Joined(p).Settle(a, e - a, IsDv(a) || IsDv(l.Next(p)))
    }

    lemma {:induction false} FreedFrees(p: nat)
      requires Inv({}) && l.Used(p)
      ensures Spans(p) && Freed(p).Inv({}) && Frees(Freed(p), p)
    {
      JoinedInv(p);
      VictimJoins(p);
      var a, e := l.Left(p), l.Right(p);
      if e != l.end { Joined(p).Settles(a, e - a, IsDv(a) || IsDv(l.Next(p))); }
    }

    /** What free relies on: the words around `p` lead to its neighbours, and those
        that are free are the designated victim, the top, or binned. */
    predicate Freeable(p: nat) {
      Spans(p) && l.top in l.head &&
      var a, n, e := l.Left(p), l.Next(p), l.Right(p);
      0 < a <= p < n && dv != p && l.top != p && l.top != a && (dvsize == 0 <==> dv == 0) &&
      (dv == a ==> dvsize == l.Size(a)) &&
      (dv == n ==> dvsize == l.Size(n) && !l.head[n].cinuse && n != l.top) &&
      (!l.head[p].pinuse ==> p in l.foot && a + l.foot[p] == p && a < p && l.foot[p] == l.Size(a)) &&
      l.head[n].pinuse && (e == l.end <==> n == l.top) && (l.head[n].cinuse ==> n != l.top) &&
      (n != l.top ==> e < l.end && e in l.head && (l.head[n].cinuse || (!l.head[e].pinuse && e > n)))
    }

    /** A small chunk that free takes out of its bin is in a bin in use. */
    predicate Unlinkable(q: nat) {
      q in l.head && (!IsDv(q) && IsSmall(l.Size(q)) ==> l.Size(q) / 8 in b.smallmap)
    }

    lemma {:induction false} IsFreeable(p: nat)
      requires Inv({}) && l.Used(p)
      ensures Freeable(p)
    {
      l.Neighbours(p);
      l.RightEnds(p);
      l.About(p);
      l.About(l.Left(p));
      if dvsize != 0 { l.About(dv); }
    }

    /** The words that free writes. */
    lemma {:induction false} MergedWords(p: nat)
      requires Freeable(p)
      ensures var a, n, e := l.Left(p), l.Next(p), l.Right(p);
        l.Merged(a, e) == Layout(l.base, l.end, if n == l.top then a else l.top,
          (if l.head[n].cinuse then l.head[n := l.head[n].(pinuse := false)]
            else l.head)[a := Word(e - a, false, true)],
          if n == l.top then l.foot else l.foot[e := e - a], l.Merged(a, e).starts, l.Merged(a, e).prev)
    {
      var a, n, e := l.Left(p), l.Next(p), l.Right(p);
      var h := if l.head[n].cinuse then l.head[n := l.head[n].(pinuse := false)] else l.head;
      assert l.Merged(a, e).head == h[a := Word(e - a, false, true)];
    }

    /** The places that free finds for the merged chunk. */
    lemma {:induction false} FreedPlaces(p: nat)
      requires Freeable(p)
      ensures var a, n, e, h, h' := l.Left(p), l.Next(p), l.Right(p), Around(p), Freed(p);
        h'.l == l.Merged(a, e) &&
        if n == l.top then h'.b == h.b && h'.dv == (if dv == a then 0 else dv) &&
          h'.dvsize == (if dv == a then 0 else dvsize)
        else if dv == a || dv == n then h'.b == h.b && h'.dv == a && h'.dvsize == e - a
        else h'.b == h.b.InsertChunk(a, e - a) && h'.dv == dv && h'.dvsize == dvsize
    {
    }

    lemma {:induction false} FreedTop(p: nat)
      requires Freeable(p)
      ensures var h := Freed(p);
        h.l.top in h.l.head &&
        h.l.Size(h.l.top) == if l.Next(p) == l.top then l.Right(p) - l.Left(p) else l.Size(l.top)
    {
    }

    lemma {:induction false} IsUnlinkable(p: nat)
      requires Inv({}) && l.Used(p)
      ensures Spans(p) && (!l.head[p].pinuse ==> Unlinkable(l.Left(p)))
      ensures !l.head[l.Next(p)].cinuse && l.Next(p) != l.top ==> LooseLeft(p).Unlinkable(l.Next(p))
    {
      l.Neighbours(p);
      l.RightEnds(p);
      var h, n := LooseLeft(p), l.Next(p);
      if !l.head[p].pinuse {
        Loosened(l.Left(p), {});
        assert !IsDv(l.Left(p)) ==> b.Holds(l.Left(p), l.Size(l.Left(p)));
      }
      if !l.head[n].cinuse && n != l.top {
        assert h.l.Free(n);
        assert !h.IsDv(n) ==> h.b.Holds(n, l.Size(n));
      }
    }

    // ----- whole operations -----

    /** From this heap to `h`, exactly the chunk `p` went into use, with `nb` bytes or
        a remainder too small for a chunk more. */
    ghost predicate Allocates(h: Heap, p: nat, nb: nat) {
      !l.Used(p) && h.l.Used(p) && nb <= h.l.Size(p) < nb + MIN_CHUNK_SIZE && SameUsed(h, p)
    }

    ghost predicate Frees(h: Heap, p: nat) {
      l.Used(p) && !h.l.Used(p) && SameUsed(h, p)
    }

    /** The chunk `p` stays in use, with at least `nb` bytes. */
    ghost predicate Resizes(h: Heap, p: nat, nb: nat) {
      l.Used(p) && h.l.Used(p) && nb <= h.l.Size(p) && SameUsed(h, p)
    }

    /** The chunk `q` goes into use in place of `p`. */
    ghost predicate Moves(h: Heap, p: nat, q: nat, nb: nat) {
      l.Used(p) && !h.l.Used(p) && !l.Used(q) && h.l.Used(q) &&
      nb <= h.l.Size(q) < nb + MIN_CHUNK_SIZE &&
      forall r: nat {:trigger h.l.Used(r)} ::
        r != p && r != q ==> (h.l.Used(r) <==> l.Used(r)) && (l.Used(r) ==> h.l.Size(r) == l.Size(r))
    }

    lemma {:induction false} MovedBy(h1: Heap, h2: Heap, p: nat, q: nat, nb: nat)
      requires l.Used(p) && Allocates(h1, q, nb) && h1.Frees(h2, p)
      ensures Moves(h2, p, q, nb)
    {
      assert h1.l.Used(q) && h2.l.Used(q);
    }

    /** A chunk in use whose end is freed stays in use. */
    lemma {:induction false} EndFreed(h: Heap, p: nat, n: nat)
      requires Inv({}) && l.Used(p) && MIN_CHUNK_SIZE <= n && n % 8 == 0 && n + MIN_CHUNK_SIZE <= l.Size(p)
      requires this.(l := l.SplitUsed(p, n)).Frees(h, p + n)
      ensures Resizes(h, p, n)
    {
      UsedSplit(p, n, {});
      assert this.(l := l.SplitUsed(p, n)).l.Used(p);
    }

    lemma {:induction false} UsedIs(p: nat, n: nat)
      requires Inv({}) && l.Used(p) && 0 < n < l.Size(p)
      ensures p != l.top && p + n != l.top && l.Next(p) in l.head && l.head[l.Next(p)].pinuse
    {
      l.Neighbours(p);
      l.NotInside(p, p + n);
    }

    lemma {:induction false} TopIs()
      requires Inv({})
      ensures l.top in l.head && l.top > 0 && !l.head[l.top].cinuse && l.head[l.top].pinuse
      ensures l.top + l.Size(l.top) == l.end
    {
      l.About(l.top);
    }

    /** What is known of a binned chunk that is to be split after `n` bytes. */
    lemma {:induction false} Carvable(v: nat, s: nat, n: nat)
      requires Inv({}) && b.Holds(v, s) && 0 < n <= s
      ensures l.Free(v) && !IsDv(v) && l.head[v] == Word(s, false, true) && v != l.top && v + s in l.head
      ensures n < s ==> v + n !in l.starts && v + n != l.top
      ensures |b.smallbins| == NSMALLBINS && |b.treebins| == NTREEBINS
    {
      l.FreeHasUsedNeighbours(v);
      if n < s { l.NotInside(v, v + n); }
    }

    /** A binned chunk, unlinked and taken whole. */
    function WithWhole(p: nat): Heap
      requires p in l.head && l.Next(p) in l.head
      requires |b.smallbins| == NSMALLBINS && |b.treebins| == NTREEBINS
    {
      this.(b := b.RemoveChunk(p, l.Size(p)), l := l.Taken(p))
    }

    lemma {:induction false} WholeAllocates(p: nat)
      requires Inv({}) && l.Free(p) && !IsDv(p)
      ensures l.Next(p) in l.head && WithWhole(p).Inv({}) && Allocates(WithWhole(p), p, l.Size(p))
    {
      Unlinked(p, {});
      var h1 := this.(b := b.RemoveChunk(p, l.Size(p)));
      h1.TakenWhole(p, {} + {p});
      assert {} + {p} - {p} == {};
    }

    /** A binned chunk, unlinked and split; the remainder is loose. */
    function WithPart(p: nat, n: nat): Heap
      requires p in l.head && n < l.Size(p)
      requires |b.smallbins| == NSMALLBINS && |b.treebins| == NTREEBINS
    {
      this.(b := b.RemoveChunk(p, l.Size(p)), l := l.Split(p, n))
    }

    lemma {:induction false} PartAllocates(p: nat, n: nat)
      requires Inv({}) && l.Free(p) && !IsDv(p)
      requires MIN_CHUNK_SIZE <= n && n % 8 == 0 && n + MIN_CHUNK_SIZE <= l.Size(p)
      ensures var h := WithPart(p, n);
        h.Inv({p + n}) && !l.Used(p) && h.l.Used(p) && h.l.Size(p) == n && SameUsed(h, p) &&
        h.l.Size(p + n) == l.Size(p) - n
    {
      Unlinked(p, {});
      var h1 := this.(b := b.RemoveChunk(p, l.Size(p)));
      h1.TakenPart(p, n, {} + {p});
      assert {} + {p} - {p} + {p + n} == {p + n};
    }

    /** replace_dv: the old designated victim goes into its bin. */
    function WithDv(r: nat): Heap
      requires r in l.head && |b.smallbins| == NSMALLBINS && |b.treebins| == NTREEBINS
    {
      this.(b := if dvsize != 0 then b.InsertChunk(dv, dvsize) else b, dv := r, dvsize := l.Size(r))
    }

    lemma {:induction false} DvReplaced(r: nat)
      requires Inv({r})
      ensures WithDv(r).Inv({})
    {
      var h1 := this;
      if dvsize != 0 {
        DvDropped({r});
        h1 := this.(dv := 0, dvsize := 0);
        h1.Binned(dv, {r} + {dv});
        h1 := h1.(b := b.InsertChunk(dv, dvsize));
        assert {r} + {dv} - {dv} == {r};
      }
      h1.DvMade(r, {r});
      assert {r} - {r} == {};
    }

    /** A binned chunk, taken whole or split; a remainder becomes the designated victim,
        or is binned. */
    function FromBin(p: nat, n: nat, victim: bool): Heap
      requires p in l.head && l.Next(p) in l.head && n <= l.Size(p)
      requires |b.smallbins| == NSMALLBINS && |b.treebins| == NTREEBINS
    {
      if l.Size(p) < n + MIN_CHUNK_SIZE then WithWhole(p)
      else
        var h := WithPart(p, n);
        if victim then h.WithDv(p + n) else h.(b := h.b.InsertChunk(p + n, l.Size(p) - n))
    }

    /** An allocation is complete once the remainder has found its place. */
    lemma {:induction false} RestSettled(h: Heap, p: nat, n: nat, victim: bool)
      requires h.Inv({p + n}) && (victim ==> h.dvsize == 0)
      requires !l.Used(p) && h.l.Used(p) && h.l.Size(p) == n && SameUsed(h, p)
      ensures var h' := h.Settle(p + n, h.l.Size(p + n), victim); h'.Inv({}) && Allocates(h', p, n)
    {
      h.Settles(p + n, h.l.Size(p + n), victim);
    }

    lemma {:induction false} RestVictim(h: Heap, p: nat, n: nat)
      requires h.Inv({p + n})
      requires !l.Used(p) && h.l.Used(p) && h.l.Size(p) == n && SameUsed(h, p)
      ensures h.WithDv(p + n).Inv({}) && Allocates(h.WithDv(p + n), p, n)
    {
      h.DvReplaced(p + n);
    }

    lemma {:induction false} PartBinned(p: nat, n: nat)
      requires Inv({}) && l.Free(p) && !IsDv(p)
      requires MIN_CHUNK_SIZE <= n && n % 8 == 0 && n + MIN_CHUNK_SIZE <= l.Size(p)
      ensures var h := WithPart(p, n).Settle(p + n, l.Size(p) - n, false); h.Inv({}) && Allocates(h, p, n)
    {
      PartAllocates(p, n);
      RestSettled(WithPart(p, n), p, n, false);
    }

    lemma {:induction false} PartVictim(p: nat, n: nat)
      requires Inv({}) && l.Free(p) && !IsDv(p)
      requires MIN_CHUNK_SIZE <= n && n % 8 == 0 && n + MIN_CHUNK_SIZE <= l.Size(p)
      ensures var h := WithPart(p, n).WithDv(p + n); h.Inv({}) && Allocates(h, p, n)
    {
      PartAllocates(p, n);
      RestVictim(WithPart(p, n), p, n);
    }

    lemma {:induction false} WholeFits(p: nat, n: nat)
      requires Inv({}) && l.Free(p) && !IsDv(p) && n <= l.Size(p) < n + MIN_CHUNK_SIZE
      ensures l.Next(p) in l.head && WithWhole(p).Inv({}) && Allocates(WithWhole(p), p, n)
    {
      WholeAllocates(p);
      hide Inv, SameUsed;
    }

    lemma {:induction false} PartFits(p: nat, n: nat, victim: bool)
      requires Inv({}) && l.Free(p) && !IsDv(p)
      requires MIN_CHUNK_SIZE <= n && n % 8 == 0 && n + MIN_CHUNK_SIZE <= l.Size(p)
      ensures l.Next(p) in l.head && FromBin(p, n, victim).Inv({}) && Allocates(FromBin(p, n, victim), p, n)
    {
      l.FreeHasUsedNeighbours(p);
      hide Inv, Allocates, Layout.Ok, Layout.Split, Bins.RemoveChunk;
      if victim { PartVictim(p, n); } else { PartBinned(p, n); }
    }

    lemma {:induction false} FromBinAllocates(p: nat, n: nat, victim: bool)
      requires Inv({}) && l.Free(p) && !IsDv(p) && MIN_CHUNK_SIZE <= n <= l.Size(p) && n % 8 == 0
      ensures l.Next(p) in l.head && FromBin(p, n, victim).Inv({}) && Allocates(FromBin(p, n, victim), p, n)
    {
      l.FreeHasUsedNeighbours(p);
      if l.Size(p) < n + MIN_CHUNK_SIZE { WholeFits(p, n); } else { PartFits(p, n, victim); }
      hide Inv, Allocates, Layout.Ok;
    }

    /** The designated victim, taken whole. */
    lemma {:induction false} DvAllocates()
      requires Inv({}) && dvsize != 0
      ensures l.Next(dv) in l.head
      ensures var h := this.(dv := 0, dvsize := 0, l := l.Taken(dv)); h.Inv({}) && Allocates(h, dv, dvsize)
    {
      DvDropped({});
      var h1 := this.(dv := 0, dvsize := 0);
      h1.TakenWhole(dv, {} + {dv});
      assert {} + {dv} - {dv} == {};
    }

    /** The designated victim, split. */
    lemma {:induction false} DvSplit(n: nat)
      requires Inv({}) && dvsize != 0 && MIN_CHUNK_SIZE <= n && n % 8 == 0 && n + MIN_CHUNK_SIZE <= dvsize
      ensures var h := this.(dv := dv + n, dvsize := dvsize - n, l := l.Split(dv, n)); h.Inv({}) && Allocates(h, dv, n)
    {
      DvDropped({});
      var h1 := this.(dv := 0, dvsize := 0);
      h1.TakenPart(dv, n, {} + {dv});
      assert {} + {dv} - {dv} + {dv + n} == {dv + n};
      var h2 := h1.(l := l.Split(dv, n));
      h2.DvMade(dv + n, {dv + n});
      assert {dv + n} - {dv + n} == {};
    }

    /** The designated victim, split or, if little would remain, taken whole. */
    function FromDv(n: nat): Heap
      requires dv in l.head && l.Next(dv) in l.head && n <= dvsize == l.Size(dv)
    {
      if dvsize - n >= MIN_CHUNK_SIZE then this.(dv := dv + n, dvsize := dvsize - n, l := l.Split(dv, n))
      else this.(dv := 0, dvsize := 0, l := l.Taken(dv))
    }

    lemma {:induction false} FromDvAllocates(n: nat)
      requires Inv({}) && MIN_CHUNK_SIZE <= n <= dvsize && n % 8 == 0
      ensures l.Next(dv) in l.head && FromDv(n).Inv({}) && Allocates(FromDv(n), dv, n)
    {
      l.FreeHasUsedNeighbours(dv);
      if dvsize - n >= MIN_CHUNK_SIZE { DvSplit(n); } else { DvAllocates(); }
    }

    lemma {:induction false} TopAllocates(n: nat)
      requires Inv({}) && MIN_CHUNK_SIZE <= n && n % 8 == 0 && n < l.Size(l.top)
      ensures var h := this.(l := l.Split(l.top, n)); h.Inv({}) && Allocates(h, l.top, n)
    {
      TakenFromTop(n, {});
    }

    // ----- the choice of malloc -----

    ghost predicate NoFreeFit(nb: nat) {
      forall q: nat {:trigger l.Free(q)} :: l.Free(q) ==> l.Size(q) < nb
    }

    /** What malloc takes: the top only if no free chunk fits; for a large request the
        free chunk that fits best; for a small request the chunk of the bins that fits
        best or, if no small bin fits with at most 8 bytes over, the designated victim. */
    ghost predicate Chosen(p: nat, nb: nat) {
      if p == l.top then p in l.head && nb < l.Size(p) && NoFreeFit(nb)
      else
        l.Free(p) && nb <= l.Size(p) &&
        forall q: nat {:trigger l.Free(q)} :: l.Free(q) && nb <= l.Size(q) ==>
          if nb >= 256 then l.Size(p) <= l.Size(q)
          else if IsDv(q) then true
          else if IsDv(p) then l.Size(q) > nb + 8 || !IsSmall(l.Size(q))
          else l.Size(p) <= l.Size(q)
    }

    lemma {:induction false} BinnedChosen(p: nat, s: nat, nb: nat)
      requires Inv({}) && b.Holds(p, s) && nb <= s && b.AllAtLeast(nb, s) && (nb < 256 || !(nb <= dvsize < s))
      ensures Chosen(p, nb)
    {
    }

    lemma {:induction false} LargeChosen(p: nat, s: nat, nb: nat)
      requires Inv({}) && b.Holds(p, s) && 256 <= nb <= s && b.LargeAtLeast(nb, s) && !(nb <= dvsize <= s)
      ensures Chosen(p, nb)
    {
      assert b.AllAtLeast(nb, s);
      BinnedChosen(p, s, nb);
    }

    /** Neither a chunk of exactly the size nor one of 8 bytes more is binned. */
    ghost predicate NoTightFit(nb: nat) {
      nb / 8 !in b.smallmap && nb / 8 + 1 !in b.smallmap
    }

    lemma {:induction false} DvChosenSmall(nb: nat)
      requires Inv({}) && MIN_CHUNK_SIZE <= nb < 256 && nb % 8 == 0 && NoTightFit(nb) && nb <= dvsize
      ensures Chosen(dv, nb)
    {
      forall q: nat {:trigger l.Free(q)} | l.Free(q) && nb <= l.Size(q) && !IsDv(q)
        ensures l.Size(q) > nb + 8 || !IsSmall(l.Size(q))
      {
        assert b.Holds(q, l.Size(q));
        if IsSmall(l.Size(q)) { assert l.Size(q) / 8 in b.smallmap; }
      }
    }

    lemma {:induction false} DvChosenLarge(nb: nat)
      requires Inv({}) && 256 <= nb <= dvsize && b.LargeAtLeast(nb, dvsize)
      ensures Chosen(dv, nb)
    {
    }

    lemma {:induction false} NothingFits(nb: nat)
      requires Inv({}) && b.NoneHeld(nb) && dvsize < nb
      ensures NoFreeFit(nb)
    {
    }
  }
}
