/** The bins of lj_alloc.c, as values: rings of small chunks, tries of large ones, and
    a bit map for each kind that says which bins are in use. A bit map is modelled as
    the set of its bits. */
module LjBins {
  import opened LjTree
  import opened LjHeap

  predicate IsSmall(s: nat) { s / 8 < NSMALLBINS }

  datatype Bins = Bins(smallmap: set<nat>, smallbins: seq<seq<nat>>, treemap: set<nat>, treebins: seq<Tree>)
  {
    /** The chunks of a small bin along its `fd` links. The links of a bin whose bit is
        clear are stale. */
    function Small(i: nat): seq<nat>
      requires i < |smallbins|
    {
      if i in smallmap then smallbins[i] else []
    }

    /** The chunk at `p` is in the bin for size `s`. */
    predicate Holds(p: nat, s: nat) {
      |smallbins| == NSMALLBINS && |treebins| == NTREEBINS &&
      if IsSmall(s) then s % 8 == 0 && p in Small(s / 8) else Has(treebins[TreeIndex(s)], p, s)
    }

    predicate SmallOk(i: nat) {
      i < |smallbins| && (i in smallmap ==> smallbins[i] != []) && Distinct(Small(i))
    }

    ghost predicate TreeOk(i: nat) {
      i < |treebins| && i < NTREEBINS && (i in treemap <==> treebins[i].Node?) &&
      Ordered(treebins[i], BinLo(i), BinBits(i)) &&
      forall p: nat, s: nat :: Has(treebins[i], p, s) ==> 256 <= s < SIZE_LIMIT && TreeIndex(s) == i && p > 0
    }

    ghost predicate Ok() {
      |smallbins| == NSMALLBINS && |treebins| == NTREEBINS &&
      (forall i :: i in smallmap ==> i < NSMALLBINS) && (forall i :: i in treemap ==> i < NTREEBINS) &&
      (forall i {:trigger SmallOk(i)} :: 0 <= i < NSMALLBINS ==> SmallOk(i)) &&
      (forall i {:trigger TreeOk(i)} :: 0 <= i < NTREEBINS ==> TreeOk(i))
    }

    lemma {:induction false} EmptyBins()
      requires smallmap == {} && treemap == {}
      requires smallbins == seq(NSMALLBINS, i => []) && treebins == seq(NTREEBINS, i => Nil)
      ensures Ok() && forall p: nat, s: nat {:trigger Holds(p, s)} :: !Holds(p, s)
    {
      forall i {:trigger TreeOk(i)} | 0 <= i < NTREEBINS
        ensures TreeOk(i)
      {
        assert treebins[i] == Nil;
      }
    }

    // ----- small bins -----

    /** insert_small_chunk: at the front, or as the only chunk of an unused bin. */
    function InsertSmall(p: nat, s: nat): Bins
      requires |smallbins| == NSMALLBINS && IsSmall(s)
    {
      var i := s / 8;
      this.(smallmap := smallmap + {i}, smallbins := smallbins[i := [p] + Small(i)])
    }

    /** unlink_small_chunk: a chunk that is alone only has its bin's bit cleared. */
    function RemoveSmall(p: nat, s: nat): Bins
      requires |smallbins| == NSMALLBINS && IsSmall(s)
    {
      var i := s / 8;
      if |Small(i)| == 1 then this.(smallmap := smallmap - {i})
      else this.(smallbins := smallbins[i := SeqWithout(smallbins[i], p)])
    }

    lemma {:induction false} InsertSmallIs(p: nat, s: nat)
      requires Ok() && IsSmall(s) && s % 8 == 0 && !Holds(p, s)
      ensures InsertSmall(p, s).Ok()
      ensures forall q: nat, z: nat {:trigger InsertSmall(p, s).Holds(q, z)} ::
        InsertSmall(p, s).Holds(q, z) <==> Holds(q, z) || (q == p && z == s)
    {
      var b, i := InsertSmall(p, s), s / 8;
      assert SmallOk(i);
      DistinctCons(p, Small(i));
      forall j {:trigger b.SmallOk(j)} | 0 <= j < NSMALLBINS
        ensures b.SmallOk(j)
      {
        assert SmallOk(j);
      }
      forall j {:trigger b.TreeOk(j)} | 0 <= j < NTREEBINS
        ensures b.TreeOk(j)
      {
        assert TreeOk(j);
      }
    }

    lemma {:induction false} RemoveSmallIs(p: nat, s: nat)
      requires Ok() && IsSmall(s) && Holds(p, s)
      ensures RemoveSmall(p, s).Ok()
      ensures forall q: nat, z: nat {:trigger RemoveSmall(p, s).Holds(q, z)} ::
        RemoveSmall(p, s).Holds(q, z) <==> Holds(q, z) && !(q == p && z == s)
    {
      var b, i := RemoveSmall(p, s), s / 8;
      assert SmallOk(i);
      SeqWithoutIs(Small(i), p);
      if |Small(i)| == 1 {
        assert Small(i) == [p];
      } else {
        TwoElements(Small(i), p);
      }
      forall j {:trigger b.SmallOk(j)} | 0 <= j < NSMALLBINS
        ensures b.SmallOk(j)
      {
        assert SmallOk(j);
      }
      forall j {:trigger b.TreeOk(j)} | 0 <= j < NTREEBINS
        ensures b.TreeOk(j)
      {
        assert TreeOk(j);
      }
    }

    static lemma {:induction false} TwoElements(s: seq<nat>, p: nat)
      requires |s| != 1 && p in s && Distinct(s)
      ensures SeqWithout(s, p) != []
    {
      SeqWithoutIs(s, p);
      assert s[0] != s[1];
      assert s[0] in s && s[1] in s;
    }

    // ----- tree bins -----

    function InsertLarge(p: nat, s: nat): Bins
      requires |treebins| == NTREEBINS
    {
      var i := TreeIndex(s);
      this.(treemap := treemap + {i}, treebins := treebins[i := Insert(treebins[i], ShiftedSize(s, i), s, p)])
    }

    function RemoveLarge(p: nat, s: nat): Bins
      requires |treebins| == NTREEBINS
    {
      var i := TreeIndex(s);
      var t := Remove(treebins[i], ShiftedSize(s, i), s, p);
      this.(treemap := if t.Nil? then treemap - {i} else treemap, treebins := treebins[i := t])
    }

    lemma {:induction false} InsertLargeIs(p: nat, s: nat)
      requires Ok() && 256 <= s < SIZE_LIMIT && !Holds(p, s) && p > 0
      ensures InsertLarge(p, s).Ok()
      ensures forall q: nat, z: nat {:trigger InsertLarge(p, s).Holds(q, z)} ::
        InsertLarge(p, s).Holds(q, z) <==> Holds(q, z) || (q == p && z == s)
    {
      var b, i := InsertLarge(p, s), TreeIndex(s);
      assert TreeOk(i);
      ShiftedSteers(s);
      InsertIs(treebins[i], ShiftedSize(s, i), s, p, BinLo(i), BinBits(i));
      hide Ordered, Steers, Insert, Has, TreeIndex, BinLo, BinBits, ShiftedSize;
      OthersKept(b, i);
    }

    lemma {:induction false} RemoveLargeIs(p: nat, s: nat)
      requires Ok() && 256 <= s < SIZE_LIMIT && Holds(p, s)
      ensures RemoveLarge(p, s).Ok()
      ensures forall q: nat, z: nat {:trigger RemoveLarge(p, s).Holds(q, z)} ::
        RemoveLarge(p, s).Holds(q, z) <==> Holds(q, z) && !(q == p && z == s)
    {
      var b, i := RemoveLarge(p, s), TreeIndex(s);
      assert TreeOk(i);
      ShiftedSteers(s);
      RemoveIs(treebins[i], ShiftedSize(s, i), s, p, BinLo(i), BinBits(i));
      hide Ordered, Steers, Remove, Has, TreeIndex, BinLo, BinBits, ShiftedSize;
      OthersKept(b, i);
    }

    /** Changing one tree bin leaves the other bins in order. */
    lemma {:induction false} OthersKept(b: Bins, i: nat)
      requires Ok() && i < NTREEBINS && b.smallmap == smallmap && b.smallbins == smallbins
      requires |b.treebins| == NTREEBINS && b.TreeOk(i)
      requires forall j :: 0 <= j < NTREEBINS && j != i ==> b.treebins[j] == treebins[j]
      requires forall j :: j != i ==> (j in b.treemap <==> j in treemap)
      ensures b.Ok()
    {
      forall j {:trigger b.SmallOk(j)} | 0 <= j < NSMALLBINS
        ensures b.SmallOk(j)
      {
        assert SmallOk(j);
      }
      forall j {:trigger b.TreeOk(j)} | 0 <= j < NTREEBINS
        ensures b.TreeOk(j)
      {
        if j != i { assert TreeOk(j); }
      }
    }

    // ----- either kind -----

    function InsertChunk(p: nat, s: nat): Bins
      requires |smallbins| == NSMALLBINS && |treebins| == NTREEBINS
    {
      if IsSmall(s) then InsertSmall(p, s) else InsertLarge(p, s)
    }

    function RemoveChunk(p: nat, s: nat): Bins
      requires |smallbins| == NSMALLBINS && |treebins| == NTREEBINS
    {
      if IsSmall(s) then RemoveSmall(p, s) else RemoveLarge(p, s)
    }

    /** `b` holds what this holds, and the chunk at `p` besides. */
    ghost predicate Gains(b: Bins, p: nat, s: nat) {
      b.Ok() &&
      forall q: nat, z: nat {:trigger b.Holds(q, z)} :: b.Holds(q, z) <==> Holds(q, z) || (q == p && z == s)
    }

    ghost predicate Loses(b: Bins, p: nat, s: nat) {
      b.Ok() &&
      forall q: nat, z: nat {:trigger b.Holds(q, z)} :: b.Holds(q, z) <==> Holds(q, z) && !(q == p && z == s)
    }

    lemma {:induction false} InsertChunkIs(p: nat, s: nat)
      requires Ok() && s % 8 == 0 && s < SIZE_LIMIT && !Holds(p, s) && p > 0
      ensures Gains(InsertChunk(p, s), p, s)
    {
      if IsSmall(s) { InsertSmallIs(p, s); } else { InsertLargeIs(p, s); }
    }

    lemma {:induction false} RemoveChunkIs(p: nat, s: nat)
      requires Ok() && s < SIZE_LIMIT && Holds(p, s)
      ensures Loses(RemoveChunk(p, s), p, s)
    {
      if IsSmall(s) { RemoveSmallIs(p, s); } else { RemoveLargeIs(p, s); }
    }

    // ----- best fit -----

    /** The large chunk that fits best has size nb + f.rsize, or there is none. */
    ghost predicate BestLarge(f: Fit, nb: nat)
    {
      (f.v != 0 ==> Holds(f.v, nb + f.rsize) && !IsSmall(nb + f.rsize)) &&
      forall q: nat, s: nat {:trigger Holds(q, s)} ::
        Holds(q, s) && !IsSmall(s) && s >= nb ==> f.v != 0 && nb + f.rsize <= s
    }

    lemma {:induction false} TreeBinOk(i: nat)
      requires Ok() && i < NTREEBINS
      ensures var t := treebins[i];
        |treebins| == NTREEBINS && TreeOk(i) && Sizes(Pairs(t)) && Ordered(t, BinLo(i), BinBits(i)) && Slight(t)
      ensures forall p: nat, s: nat :: Has(treebins[i], p, s) ==> Holds(p, s) && !IsSmall(s)
    {
      assert TreeOk(i);
      OrderedSmall(treebins[i], BinLo(i), BinBits(i));
    }

    /** Nothing in the tree bin meets the request. */
    ghost predicate Lacks(i: nat, nb: nat)
      requires i < |treebins|
    {
      forall p: nat, s: nat {:trigger Has(treebins[i], p, s)} :: Has(treebins[i], p, s) ==> s < nb
    }

    /** The least fit in tree bin `i` is the best of all, if the tree bins from that of
        the request up to `i` do not meet the request. */
    lemma {:induction false} LeastIsBest(f: Fit, nb: nat, i: nat)
      requires Ok() && 256 <= nb < SIZE_LIMIT && TreeIndex(nb) <= i < NTREEBINS
      requires FitOk(f, Pairs(treebins[i]), nb) && Least(f, Pairs(treebins[i]), nb)
      requires forall j :: TreeIndex(nb) <= j < i ==> Lacks(j, nb)
      requires f.v != 0
      ensures BestLarge(f, nb)
    {
      TreeBinOk(i);
      assert Has(treebins[i], f.v, nb + f.rsize);
      forall q: nat, s: nat {:trigger Holds(q, s)} | Holds(q, s) && !IsSmall(s)
        ensures s >= nb ==> nb + f.rsize <= s
      {
        LeastOf(f, nb, i, q, s);
      }
    }

    lemma {:induction false} LeastOf(f: Fit, nb: nat, i: nat, q: nat, s: nat)
      requires Ok() && 256 <= nb < SIZE_LIMIT && TreeIndex(nb) <= i < NTREEBINS
      requires Least(f, Pairs(treebins[i]), nb) && f.v != 0 && Has(treebins[i], f.v, nb + f.rsize)
      requires forall j :: TreeIndex(nb) <= j < i ==> Lacks(j, nb)
      requires Holds(q, s) && !IsSmall(s)
      ensures s >= nb ==> nb + f.rsize <= s
    {
      hide TreeIndex, Ordered, BinLo, BinBits, Slight, Has, SmallOk;
      TreeBinOk(i);
      var j := TreeIndex(s);
      TreeBinOk(j);
      assert Has(treebins[j], q, s);
      if j == i {
        assert (q, s) in Pairs(treebins[i]);
      } else if j > i {
        IndexOrder(nb + f.rsize, s);
      } else if j >= TreeIndex(nb) {
        assert Lacks(j, nb);
      } else {
        IndexOrder(s, nb);
      }
    }

    /** If no tree bin from that of the request on meets it, none does. */
    lemma {:induction false} NoneFits(f: Fit, nb: nat)
      requires Ok() && 256 <= nb && f.v == 0
      requires nb < SIZE_LIMIT ==> forall j :: TreeIndex(nb) <= j < NTREEBINS ==> Lacks(j, nb)
      ensures BestLarge(f, nb)
    {
      forall q: nat, s: nat {:trigger Holds(q, s)} | Holds(q, s) && !IsSmall(s)
        ensures s < nb
      {
        var j := TreeIndex(s);
        TreeBinOk(j);
        assert Has(treebins[j], q, s);
        if nb < SIZE_LIMIT && j >= TreeIndex(nb) { assert Lacks(j, nb); }
        if nb < SIZE_LIMIT { IndexOrder(s, nb); }
      }
    }

    /** Below a higher bin everything fits. */
    lemma {:induction false} HigherBinWalks(nb: nat, j: nat)
      requires Ok() && 256 <= nb < W64 && TreeIndex(nb) < j < NTREEBINS
      ensures var f, t := Fit(0, W64 - nb), treebins[j];
        Idle(f, t, nb) || (nb < SIZE_LIMIT && Walking(f, Pairs(t), t, nb, BinLo(j), BinBits(j)))
    {
      TreeBinOk(j);
      if nb < SIZE_LIMIT {
        forall p: nat, s: nat | Has(treebins[j], p, s)
          ensures s >= nb
        {
          IndexOrder(nb, s);
        }
      }
    }

    /** Every large chunk of at least `nb` bytes has at least `z` bytes. */
    ghost predicate LargeAtLeast(nb: nat, z: nat) {
      forall q: nat, s: nat {:trigger Holds(q, s)} :: Holds(q, s) && !IsSmall(s) && s >= nb ==> z <= s
    }

    ghost predicate NoLarge(nb: nat) {
      forall q: nat, s: nat {:trigger Holds(q, s)} :: Holds(q, s) && !IsSmall(s) ==> s < nb
    }

    /** Every binned chunk of at least `nb` bytes has at least `z` bytes. */
    ghost predicate AllAtLeast(nb: nat, z: nat) {
      forall q: nat, s: nat {:trigger Holds(q, s)} :: Holds(q, s) && s >= nb ==> z <= s
    }

    ghost predicate NoneHeld(nb: nat) {
      forall q: nat, s: nat {:trigger Holds(q, s)} :: Holds(q, s) ==> s < nb
    }

    /** The first small bin in use from that of the request on fits best. */
    lemma {:induction false} FirstSmallLeast(i: nat, nb: nat)
      requires Ok() && i in smallmap && forall k :: k in smallmap && nb / 8 <= k ==> i <= k
      ensures AllAtLeast(nb, i * 8)
    {
      forall q: nat, s: nat {:trigger Holds(q, s)} | Holds(q, s) && s >= nb
        ensures i * 8 <= s
      {
        if IsSmall(s) { assert s / 8 in smallmap; }
      }
    }

    lemma {:induction false} OnlyLargeFit(nb: nat)
      requires Ok() && nb % 8 == 0 && forall k :: k in smallmap ==> k < nb / 8
      ensures forall q: nat, s: nat {:trigger Holds(q, s)} :: Holds(q, s) && s >= nb ==> !IsSmall(s)
    {
      forall q: nat, s: nat {:trigger Holds(q, s)} | Holds(q, s) && IsSmall(s)
        ensures s < nb
      {
        assert s / 8 in smallmap;
      }
    }

    lemma {:induction false} NoTreeNoLarge()
      requires Ok() && treemap == {}
      ensures NoLarge(0)
    {
      forall q: nat, s: nat {:trigger Holds(q, s)} | Holds(q, s)
        ensures IsSmall(s)
      {
        if !IsSmall(s) { HeldInBin(q, s); }
      }
    }

    lemma {:induction false} BestIsLeast(f: Fit, nb: nat)
      requires BestLarge(f, nb)
      ensures if f.v == 0 then NoLarge(nb) else LargeAtLeast(nb, nb + f.rsize)
    {
    }

    lemma {:induction false} HeldInBin(q: nat, s: nat)
      requires Ok() && Holds(q, s) && !IsSmall(s)
      ensures 256 <= s < SIZE_LIMIT && Has(treebins[TreeIndex(s)], q, s) && TreeIndex(s) in treemap
    {
      TreeBinOk(TreeIndex(s));
    }

    /** The least chunk of the first tree bin in use is the least of all tree bins. */
    lemma {:induction false} FirstBinLeast(f: Fit, nb: nat, i: nat)
      requires Ok() && i < NTREEBINS && treebins[i].Node? && nb < 256
      requires forall k :: k in treemap ==> i <= k
      requires FitOk(f, Pairs(treebins[i]), nb) && Least(f, Pairs(treebins[i]), nb)
      ensures f.v != 0 && Holds(f.v, nb + f.rsize) && !IsSmall(nb + f.rsize) && LargeAtLeast(0, nb + f.rsize)
    {
      TreeBinOk(i);
      var t := treebins[i];
      assert Has(t, t.ring[0], t.size) && (t.ring[0], t.size) in Pairs(t);
      assert Has(t, f.v, nb + f.rsize);
      hide TreeIndex, Ordered, BinLo, BinBits, Slight, Has, SmallOk;
      forall q: nat, s: nat {:trigger Holds(q, s)} | Holds(q, s) && !IsSmall(s)
        ensures nb + f.rsize <= s
      {
        HeldInBin(q, s);
        if TreeIndex(s) == i { assert (q, s) in Pairs(t); } else { IndexOrder(nb + f.rsize, s); }
      }
    }

    /** The walk of tmalloc_small starts with the root of the first tree bin in use. */
    lemma {:induction false} FirstBinWalks(i: nat, nb: nat)
      requires Ok() && i in treemap && 0 < nb < 256
      ensures i < NTREEBINS && treebins[i].Node? && treebins[i].ring != [] && Sizes(Pairs(treebins[i]))
      ensures var t, b := treebins[i], BinBits(i);
        Walking(Fit(t.ring[0], Sub64(t.size, nb)), Pairs(t), LeftmostChild(t), nb,
                WalkLo(t, BinLo(i), b), if b > 0 then b - 1 else 0)
    {
      TreeBinOk(i);
      SmallRequestWalks(treebins[i], nb, BinLo(i), BinBits(i));
    }
  }

  /** The first chunk of a tree bin fits any small request, and the walk goes on below. */
  lemma {:induction false} SmallRequestWalks(t: Tree, nb: nat, lo: nat, b: nat)
    requires t.Node? && Ordered(t, lo, b) && Sizes(Pairs(t)) && 0 < nb < 256
    requires forall p: nat, s: nat :: Has(t, p, s) ==> s >= 256
    ensures t.ring != []
    ensures Walking(Fit(t.ring[0], Sub64(t.size, nb)), Pairs(t), LeftmostChild(t), nb,
                    WalkLo(t, lo, b), if b > 0 then b - 1 else 0)
  {
    assert Has(t, t.ring[0], t.size);
    var f := Fit(0, W64 - nb);
    assert Walking(f, Pairs(t), t, nb, lo, b);
    WalkStep(f, Pairs(t), t, nb, lo, b);
  }
}
