/** The allocator of lj_alloc.c on one arena: malloc, free and realloc update header
    words, bins, the designated victim and the top in place. The constants are those
    of a 64-bit system, and the system gives no memory beyond the arena. */
module LjAlloc {
  import opened LjTree
  import opened LjHeap
  import opened LjBins
  import opened LjState

  const CHUNK_OVERHEAD: nat := 8
  const MIN_REQUEST: nat := 23
  const MAX_SMALL_REQUEST: nat := 240
  const MAX_REQUEST: nat := W64 - 128
  const MEM_OFFSET: nat := 16               // from a chunk to its memory
  const MAX_RELEASE_CHECK_RATE: nat := 255
  const DEFAULT_TRIM_THRESHOLD: nat := 2 * 1024 * 1024
  const MAX_SIZE_T: nat := W64 - 1

  function PadRequest(req: nat): nat { (req + CHUNK_OVERHEAD + 7) / 8 * 8 }

  function RequestToSize(req: nat): nat {
    if req < MIN_REQUEST then MIN_CHUNK_SIZE else PadRequest(req)
  }

  lemma {:induction false} RequestFits(req: nat)
    ensures var nb := RequestToSize(req);
      MIN_CHUNK_SIZE <= nb && nb % 8 == 0 && req + CHUNK_OVERHEAD <= nb &&
      (req <= MAX_SMALL_REQUEST <==> nb < 256)
  {
  }

  /** The heap with one chunk in use, and the top. */
  function FreshHeap(base: nat, end: nat, msize: nat): Heap
    requires base + msize < end
  {
    var words := map[base := Word(msize, true, true), base + msize := Word(end - (base + msize), false, true)];
    Heap(Layout(base, end, base + msize, words, map[], {base, base + msize}, map[base + msize := base]),
         Bins({}, seq(NSMALLBINS, i => []), {}, seq(NTREEBINS, i => Nil)), 0, 0)
  }

  lemma {:induction false} FreshIs(base: nat, end: nat, msize: nat)
    requires 0 < base && base % 8 == 0 && end % 8 == 0 && msize % 8 == 0 && MIN_CHUNK_SIZE <= msize
    requires base + msize < end && end - base < SIZE_LIMIT && end < W64
    ensures var h := FreshHeap(base, end, msize);
      h.Inv({}) && h.l.Used(base) && forall p: nat {:trigger h.l.Used(p)} :: h.l.Used(p) ==> p == base
  {
    var h := FreshHeap(base, end, msize);
    h.b.EmptyBins();
    FreshLayout(base, end, msize);
    hide Bins.Ok, Bins.Holds, Layout.Ok;
  }

  lemma {:induction false} FreshLayout(base: nat, end: nat, msize: nat)
    requires 0 < base && base % 8 == 0 && end % 8 == 0 && msize % 8 == 0 && MIN_CHUNK_SIZE <= msize
    requires base + msize < end && end - base < SIZE_LIMIT && end < W64
    ensures var l := FreshHeap(base, end, msize).l;
      l.Ok() && (forall p {:trigger l.Even(p)} :: p in l.starts ==> l.Even(p)) && forall p: nat {:trigger l.Free(p)} ::
        !l.Free(p)
  {
    var l := FreshHeap(base, end, msize).l;
    assert l.Sound(base) && l.Sound(base + msize);
  }

  function Min(a: int, b: int): int { if a < b then a else b }

  function Byte(bytes: map<nat, nat>, a: nat): nat { if a in bytes then bytes[a] else 0 }

  /** What programs store in their blocks, by address. */
  class Memory {
    var bytes: map<nat, nat>

    constructor ()
    {
      bytes := map[];
    }

    /** memcpy */
    method Copy(from: nat, to: nat, n: nat)
      requires from + n <= to || to + n <= from
      modifies this
      ensures forall a: nat {:trigger Byte(bytes, a)} ::
        Byte(bytes, a) == Byte(old(bytes), if to <= a < to + n then a - to + from else a)
    {
      for i := 0 to n
        invariant forall a: nat {:trigger Byte(bytes, a)} ::
          Byte(bytes, a) == Byte(old(bytes), if to <= a < to + i then a - to + from else a)
      {
        ghost var was := bytes;
        bytes := bytes[to + i := Byte(bytes, from + i)];
        assert forall a: nat {:trigger Byte(bytes, a)} :: a != to + i ==> Byte(bytes, a) == Byte(was, a);
      }
    }

    /** What a program writes. */
    method Write(to: nat, text: seq<nat>)
      modifies this
      ensures forall a: nat {:trigger Byte(bytes, a)} ::
        Byte(bytes, a) == if to <= a < to + |text| then text[a - to] else Byte(old(bytes), a)
    {
      for i := 0 to |text|
        invariant forall a: nat {:trigger Byte(bytes, a)} ::
          Byte(bytes, a) == if to <= a < to + i then text[a - to] else Byte(old(bytes), a)
      {
        ghost var was := bytes;
        bytes := bytes[to + i := text[i]];
        assert forall a: nat {:trigger Byte(bytes, a)} :: a != to + i ==> Byte(bytes, a) == Byte(was, a);
      }
    }
  }

  /** What a program asks for, and what it writes to the start of a block. */
  datatype Request =
    | Ask(nsize: nat)
    | GiveBack(ptr: nat)
    | Resize(ptr: nat, nsize: nat)
    | Fill(ptr: nat, text: seq<nat>)

  /** The blocks of a program, with the sizes that it asked for, and what it wrote at the
      start of each. */
  datatype Blocks = Blocks(live: map<nat, nat>, held: map<nat, seq<nat>>)

  /** The blocks after a request that was answered by `mem`. */
  function After(b: Blocks, r: Request, mem: nat): Blocks {
    match r
    case Ask(nsize) => if mem == 0 then b else Blocks(b.live[mem := nsize % W64], b.held[mem := []])
    case GiveBack(ptr) => Blocks(b.live - {ptr}, b.held - {ptr})
    case Resize(ptr, nsize) =>
      if mem == 0 || ptr !in b.live || ptr !in b.held then b
      else
        var n, text := nsize % W64, b.held[ptr];
        Blocks((b.live - {ptr})[mem := n], (b.held - {ptr})[mem := text[..Min(|text|, n)]])
    case Fill(ptr, text) =>
      if ptr in b.live && |text| <= b.live[ptr] then b.(held := b.held[ptr := text]) else b
  }

  function Replay(requests: seq<Request>, mems: seq<nat>, k: nat): Blocks
    requires k <= |requests| && k <= |mems|
  {
    if k == 0 then Blocks(map[], map[]) else After(Replay(requests, mems, k - 1), requests[k - 1], mems[k - 1])
  }

  lemma {:induction false} ReplaySame(requests: seq<Request>, mems: seq<nat>, mems': seq<nat>, k: nat)
    requires k <= |requests| && k <= |mems| && mems <= mems'
    ensures Replay(requests, mems', k) == Replay(requests, mems, k)
    decreases k
  {
    if k > 0 { ReplaySame(requests, mems, mems', k - 1); }
  }

  class Arena {
    const base: nat
    const end: nat
    const memory: Memory
    var head: map<nat, Word>
    var foot: map<nat, nat>
    var smallmap: set<nat>
    var smallbins: seq<seq<nat>>
    var treemap: set<nat>
    var treebins: seq<Tree>
    var dv: nat
    var dvsize: nat
    var top: nat
    var topsize: nat
    var trimCheck: nat
    var releaseChecks: nat
    ghost var starts: set<nat>
    ghost var prev: map<nat, nat>

    ghost function View(): Heap
      reads this
    {
      Heap(Layout(base, end, top, head, foot, starts, prev),
           Bins(smallmap, smallbins, treemap, treebins), dv, dvsize)
    }

    ghost predicate Valid()
      reads this
    {
      View().Inv({}) && top in head && topsize == head[top].size && releaseChecks > 0
    }

    /** lj_alloc_create: the arena starts with a chunk in use that holds the allocator's
        own state, and the rest is the top. */
    constructor (base: nat, end: nat, msize: nat)
      requires 0 < base && base % 8 == 0 && end % 8 == 0 && msize % 8 == 0 && MIN_CHUNK_SIZE <= msize
      requires base + msize < end && end - base < SIZE_LIMIT && end < W64
      ensures Valid() && this.base == base && this.end == end && fresh(memory)
      ensures View().l.Used(base) && forall p: nat {:trigger View().l.Used(p)} :: View().l.Used(p) ==> p == base
    {
      FreshIs(base, end, msize);
      this.base, this.end := base, end;
      memory := new Memory();
      head := map[base := Word(msize, true, true), base + msize := Word(end - (base + msize), false, true)];
      foot := map[];
      smallmap, treemap := {}, {};
      smallbins := seq(NSMALLBINS, i => []);
      treebins := seq(NTREEBINS, i => Nil);
      dv, dvsize := 0, 0;
      top, topsize := base + msize, end - (base + msize);
      trimCheck := DEFAULT_TRIM_THRESHOLD;
      releaseChecks := MAX_RELEASE_CHECK_RATE;
      starts := {base, base + msize};
      prev := map[base + msize := base];
      new;
      assert View() == FreshHeap(base, end, msize);
      hide Heap.Inv, Layout.Used;
    }

    // ----- header words -----

    /** set_inuse_and_pinuse */
    method SetInuseAndPinuse(p: nat, s: nat)
      requires p + s in head
      modifies this`head
      ensures var h := old(head)[p := Word(s, true, true)]; head == h[p + s := h[p + s].(pinuse := true)]
    {
      head := head[p := Word(s, true, true)];
      head := head[p + s := head[p + s].(pinuse := true)];
    }

    /** set_size_and_pinuse_of_inuse_chunk */
    method SetInuseChunk(p: nat, s: nat)
      modifies this`head
      ensures head == old(head)[p := Word(s, true, true)]
    {
      head := head[p := Word(s, true, true)];
    }

    /** set_size_and_pinuse_of_free_chunk */
    method SetFreeChunk(p: nat, s: nat)
      modifies this`head, this`foot
      ensures head == old(head)[p := Word(s, false, true)] && foot == old(foot)[p + s := s]
    {
      head := head[p := Word(s, false, true)];
      foot := foot[p + s := s];
    }

    // ----- bins -----

    method InsertSmallChunk(p: nat, s: nat)
      requires |smallbins| == NSMALLBINS && IsSmall(s)
      modifies this`smallmap, this`smallbins
      ensures View().b == old(View().b).InsertSmall(p, s)
    {
      var i := s / 8;
      if i !in smallmap {
        smallmap := smallmap + {i};
        smallbins := smallbins[i := [p]];
      } else {
        smallbins := smallbins[i := [p] + smallbins[i]];
      }
      assert smallmap == old(smallmap) + {i};
      assert [p] + [] == [p];
    }

    method UnlinkSmallChunk(p: nat, s: nat)
      requires |smallbins| == NSMALLBINS && IsSmall(s) && s / 8 in smallmap
      modifies this`smallmap, this`smallbins
      ensures View().b == old(View().b).RemoveSmall(p, s)
    {
      var i := s / 8;
      if |smallbins[i]| == 1 {
        smallmap := smallmap - {i};
      } else {
        smallbins := smallbins[i := SeqWithout(smallbins[i], p)];
      }
    }

    /** unlink_first_small_chunk */
    method UnlinkFirstSmallChunk(i: nat) returns (p: nat)
      requires |smallbins| == NSMALLBINS && i < NSMALLBINS && i in smallmap && smallbins[i] != []
      modifies this`smallmap, this`smallbins
      ensures p == old(smallbins)[i][0] && View().b == old(View().b).RemoveSmall(p, i * 8)
    {
      p := smallbins[i][0];
      if |smallbins[i]| == 1 {
        smallmap := smallmap - {i};
      } else {
        smallbins := smallbins[i := smallbins[i][1..]];
      }
    }

    method InsertLargeChunk(p: nat, s: nat)
      requires |treebins| == NTREEBINS
      modifies this`treemap, this`treebins
      ensures View().b == old(View().b).InsertLarge(p, s)
    {
      var i := TreeIndex(s);
      treebins := treebins[i := Insert(treebins[i], ShiftedSize(s, i), s, p)];
      treemap := treemap + {i};
    }

    method UnlinkLargeChunk(p: nat, s: nat)
      requires |treebins| == NTREEBINS
      modifies this`treemap, this`treebins
      ensures View().b == old(View().b).RemoveLarge(p, s)
    {
      var i := TreeIndex(s);
      treebins := treebins[i := Remove(treebins[i], ShiftedSize(s, i), s, p)];
      if treebins[i].Nil? { treemap := treemap - {i}; }
    }

    method InsertChunk(p: nat, s: nat)
      requires |smallbins| == NSMALLBINS && |treebins| == NTREEBINS
      modifies this`smallmap, this`smallbins, this`treemap, this`treebins
      ensures View().b == old(View().b).InsertChunk(p, s)
    {
      if IsSmall(s) { InsertSmallChunk(p, s); } else { InsertLargeChunk(p, s); }
    }

    method UnlinkChunk(p: nat, s: nat)
      requires |smallbins| == NSMALLBINS && |treebins| == NTREEBINS
      requires IsSmall(s) ==> s / 8 in smallmap
      modifies this`smallmap, this`smallbins, this`treemap, this`treebins
      ensures View().b == old(View().b).RemoveChunk(p, s)
    {
      if IsSmall(s) { UnlinkSmallChunk(p, s); } else { UnlinkLargeChunk(p, s); }
    }

    /** replace_dv, used only when the old designated victim is small. */
    method ReplaceDv(r: nat, s: nat)
      requires |smallbins| == NSMALLBINS && |treebins| == NTREEBINS
      requires IsSmall(dvsize) && r in head && head[r].size == s
      modifies this`smallmap, this`smallbins, this`dv, this`dvsize
      ensures View() == old(View()).WithDv(r)
    {
      if dvsize != 0 { InsertSmallChunk(dv, dvsize); }
      dvsize := s;
      dv := r;
    }

    // ----- allocation -----

    /** The first chunk of small bin `i`, which fits without a remainder. */
    method TakeSmall(i: nat) returns (p: nat)
      requires Valid() && i in smallmap
      modifies this
      ensures Valid() && p != 0 && old(View()).Allocates(View(), p, i * 8) && View().l.Size(p) == i * 8
      ensures i < old(|smallbins|) && old(smallbins)[i] != [] && p == old(smallbins)[i][0]
    {
      FirstOfSmall(i);
      ghost var h0 := View();
      p := smallbins[i][0];
      h0.WholeAllocates(p);
      h0.l.FreeHasUsedNeighbours(p);
      p := UnlinkFirstSmallChunk(i);
      SetInuseAndPinuse(p, i * 8);
      assert View() == h0.WithWhole(p);
    }

    /** The first chunk of a small bin is free and has the bin's size. */
    lemma {:induction false} FirstOfSmall(i: nat)
      requires Valid() && i in smallmap
      ensures i < NSMALLBINS && |smallbins| == NSMALLBINS && smallbins[i] != []
      ensures var h, p := View(), smallbins[i][0];
        h.b.Holds(p, i * 8) && h.l.Free(p) && !h.IsDv(p) && h.l.Size(p) == i * 8 && p > 0
    {
      var h := View();
      assert h.b.SmallOk(i);
      assert smallbins[i][0] in h.b.Small(i);
      assert h.b.Holds(smallbins[i][0], i * 8);
      h.l.About(smallbins[i][0]);
    }

    /** The least bit of a bit map from `i` on (lj_ffs of the bits to its left). */
    method LeastBit(bits: set<nat>, i: nat) returns (j: nat)
      requires exists k :: k in bits && i <= k
      ensures i <= j && j in bits && forall k :: k in bits && i <= k ==> j <= k
    {
      ghost var some :| some in bits && i <= some;
      j := i;
      while j !in bits
        invariant i <= j <= some && forall k :: k in bits && i <= k ==> j <= k
        decreases some - j
      {
        j := j + 1;
      }
    }

    /** The first chunk of small bin `i`, split unless the remainder is too small. */
    method SplitSmall(i: nat, nb: nat) returns (p: nat)
      requires Valid() && i in smallmap && MIN_CHUNK_SIZE <= nb && nb % 8 == 0 && nb <= i * 8
      requires i * 8 < nb + MIN_CHUNK_SIZE || IsSmall(dvsize)
      modifies this
      ensures Valid() && p != 0 && old(View()).Allocates(View(), p, nb)
      ensures i < old(|smallbins|) && old(smallbins)[i] != [] && p == old(smallbins)[i][0]
    {
      hide Bins.Holds, Layout.Free;
      if i * 8 - nb < MIN_CHUNK_SIZE { p := TakeSmall(i); } else { p := CarveSmall(i, nb); }
    }

    method CarveSmall(i: nat, nb: nat) returns (p: nat)
      requires Valid() && i in smallmap && MIN_CHUNK_SIZE <= nb && nb % 8 == 0 && nb + MIN_CHUNK_SIZE <= i * 8
      requires IsSmall(dvsize)
      modifies this
      ensures Valid() && p != 0 && old(View()).Allocates(View(), p, nb)
      ensures i < old(|smallbins|) && old(smallbins)[i] != [] && p == old(smallbins)[i][0]
    {
      FirstOfSmall(i);
      ghost var h0 := View();
      h0.Carvable(smallbins[i][0], i * 8, nb);
      h0.FromBinAllocates(smallbins[i][0], nb, true);
      hide Heap.Inv, Heap.Allocates, Bins.Holds, Layout.Free;
      p := UnlinkFirstSmallChunk(i);
      SplitFree(p, nb, i * 8);
      ReplaceDv(p + nb, i * 8 - nb);
      assert View() == h0.FromBin(p, nb, true);
    }

    /** The words of a free chunk split into one in use and a free rest. */
    method SplitFree(p: nat, nb: nat, s: nat)
      requires p in head && head[p] == Word(s, false, true) && 0 < nb < s && p != top
      modifies this`head, this`foot, this`starts, this`prev
      ensures View() == old(View()).(l := old(View()).l.Split(p, nb))
      ensures top in old(head) && top != p + nb ==> top in head && head[top] == old(head)[top]
    {
      var r, rsize := p + nb, s - nb;
      SetInuseChunk(p, nb);
      SetFreeChunk(r, rsize);
      starts := starts + {r};
      prev := prev[r := p][r + rsize := r];
    }

    // ----- best fit -----

    /** The tree bins after that of the request. */
    function LeftBits(i: nat): set<nat>
      reads this
    {
      set k | k in treemap && k > i :: k
    }

    /** Goes on with the next tree bin in use after that of the request. */
    method NextBin(nb: nat) returns (f: Fit)
      requires Valid() && 256 <= nb < W64
      requires nb < SIZE_LIMIT ==> View().b.Lacks(TreeIndex(nb), nb)
      ensures View().b.BestLarge(f, nb)
    {
      f := Fit(0, W64 - nb);
      var leftbits := LeftBits(TreeIndex(nb));
      if leftbits == {} {
        forall j | TreeIndex(nb) < j < NTREEBINS
          ensures View().b.Lacks(j, nb)
        {
          View().b.TreeBinOk(j);
          assert j !in leftbits;
        }
        View().b.NoneFits(f, nb);
        return;
      }
      ghost var k :| k in leftbits;
      var i := LeastBit(leftbits, 0);
      var t := treebins[i];
      View().b.TreeBinOk(i);
      View().b.HigherBinWalks(nb, i);
      f := WalkLeftmost(Pairs(t), t, f, nb, BinLo(i), BinBits(i));
      if nb >= SIZE_LIMIT {
        View().b.NoneFits(f, nb);
      } else {
        WalkMeets(Fit(0, W64 - nb), Pairs(t), t, nb, BinLo(i), BinBits(i));
        forall j | TreeIndex(nb) < j < i
          ensures View().b.Lacks(j, nb)
        {
          View().b.TreeBinOk(j);
          assert j !in leftbits;
        }
        View().b.LeastIsBest(f, nb, i);
      }
    }

    /** The search of tmalloc_large: the request's own bin, or else the next bin in use. */
    method BestTreeChunk(nb: nat) returns (f: Fit)
      requires Valid() && 256 <= nb < W64
      ensures View().b.BestLarge(f, nb)
    {
      var idx := TreeIndex(nb);
      View().b.TreeBinOk(idx);
      var t;
      ghost var lo, b;
      ghost var all := Pairs(treebins[idx]);
      f, t, lo, b := SearchOwnBin(treebins[idx], nb, all);
      if nb < SIZE_LIMIT { WalkMeets(f, all, t, nb, lo, b); }
      if t.Nil? && f.v == 0 {
        if nb < SIZE_LIMIT {
          forall p: nat, s: nat {:trigger Has(treebins[idx], p, s)} | Has(treebins[idx], p, s)
            ensures s < nb
          {
            assert (p, s) in all;
          }
        }
        f := NextBin(nb);
      } else {
        f := WalkLeftmost(all, t, f, nb, lo, b);
        if nb >= SIZE_LIMIT { View().b.NoneFits(f, nb); } else { View().b.LeastIsBest(f, nb, idx); }
      }
    }

    /** Unlinks a chunk from its tree bin and takes it whole or its first part; the
        remainder, if any, is left to the caller. */
    method CarveLarge(v: nat, s: nat, nb: nat)
      requires Valid() && View().b.Holds(v, s) && !IsSmall(s) && v != 0
      requires MIN_CHUNK_SIZE <= nb <= s && nb % 8 == 0
      modifies this`head, this`foot, this`treemap, this`treebins, this`starts, this`prev
      ensures var h0 := old(View());
        h0.l.Free(v) && !h0.IsDv(v) && h0.l.Size(v) == s && h0.l.Next(v) in h0.l.head && v != top &&
        View() == if s < nb + MIN_CHUNK_SIZE then h0.WithWhole(v) else h0.WithPart(v, nb)
      ensures old(top in head) ==> top in head && head[top].size == old(head[top].size)
    {
      hide Heap.Inv, Bins.Holds, Bins.RemoveLarge, Layout.Free;
      View().Carvable(v, s, nb);
      UnlinkLargeChunk(v, s);
      if s < nb + MIN_CHUNK_SIZE {
        SetInuseAndPinuse(v, s);
      } else {
        SplitFree(v, nb, s);
      }
    }

    /** tmalloc_small: the smallest chunk of the first tree bin in use; a remainder
        becomes the designated victim. */
    method TmallocSmall(nb: nat) returns (p: nat)
      requires Valid() && treemap != {} && MIN_CHUNK_SIZE <= nb < 256 && nb % 8 == 0 && IsSmall(dvsize)
      modifies this
      requires forall k :: k in smallmap ==> k < nb / 8
      ensures Valid() && p != 0 && old(View()).Allocates(View(), p, nb) && old(View()).Chosen(p, nb)
    {
      var f := FirstTreeChunk(nb);
      p := f.v;
      View().b.OnlyLargeFit(nb);
      View().BinnedChosen(p, nb + f.rsize, nb);
      TakeForSmall(p, f.rsize, nb);
    }

    /** Takes a large chunk for a small request. */
    method TakeForSmall(p: nat, rsize: nat, nb: nat)
      requires Valid() && View().b.Holds(p, nb + rsize) && !IsSmall(nb + rsize) && p != 0
      requires MIN_CHUNK_SIZE <= nb && nb % 8 == 0 && IsSmall(dvsize)
      modifies this
      ensures Valid() && old(View()).Allocates(View(), p, nb)
    {
      ghost var h0 := View();
      h0.FromBinAllocates(p, nb, true);
      CarveLarge(p, nb + rsize, nb);
      hide Heap.Inv, Heap.Allocates, Bins.Holds;
      if rsize >= MIN_CHUNK_SIZE { ReplaceDv(p + nb, rsize); }
      assert View() == h0.FromBin(p, nb, true);
    }

    /** The search of tmalloc_small. */
    method FirstTreeChunk(nb: nat) returns (f: Fit)
      requires Valid() && treemap != {} && 0 < nb < 256
      ensures f.v != 0 && View().b.Holds(f.v, nb + f.rsize) && !IsSmall(nb + f.rsize)
      ensures View().b.LargeAtLeast(0, nb + f.rsize)
    {
      ghost var some :| some in treemap;
      var i := LeastBit(treemap, 0);
      View().b.FirstBinWalks(i, nb);
      var t := treebins[i];
      f := Fit(t.ring[0], Sub64(t.size, nb));
      ghost var lo, b := WalkLo(t, BinLo(i), BinBits(i)), if BinBits(i) > 0 then BinBits(i) - 1 else 0;
      f := WalkLeftmost(Pairs(t), LeftmostChild(t), f, nb, lo, b);
      View().b.FirstBinLeast(f, nb, i);
    }

    /** The choice of tmalloc_large: the large chunk that fits best, or 0 when there is
        none or the designated victim fits at least as well. The comparison wraps around
        when the victim is too small. */
    method ChooseLarge(nb: nat) returns (p: nat, s: nat)
      requires Valid() && 256 <= nb < W64
      ensures p == 0 ==> View().b.NoLarge(nb) || (nb <= dvsize && View().b.LargeAtLeast(nb, dvsize))
      ensures p != 0 ==>
        nb <= s && View().b.Holds(p, s) && !IsSmall(s) && View().b.LargeAtLeast(nb, s) && !(nb <= dvsize <= s)
    {
      var f := BestTreeChunk(nb);
      View().b.BestIsLeast(f, nb);
      if f.v == 0 { return 0, 0; }
      SizesBelowLimit(f.v, nb + f.rsize);
      SubWraps(dvsize, nb, f.rsize);
      if f.rsize >= Sub64(dvsize, nb) { return 0, 0; }
      return f.v, nb + f.rsize;
    }

    lemma {:induction false} SizesBelowLimit(v: nat, s: nat)
      requires Valid() && View().b.Holds(v, s)
      ensures s < SIZE_LIMIT && dvsize < SIZE_LIMIT
      ensures v in head && head[v].size == s && v != 0 && View().l.Free(v)
    {
      var h := View();
      h.l.About(v);
      if dvsize != 0 { h.l.About(dv); }
    }

    /** tmalloc_large: takes the chosen chunk; a remainder is binned. */
    method TmallocLarge(nb: nat) returns (p: nat)
      requires Valid() && 256 <= nb < W64 && nb % 8 == 0
      modifies this
      ensures Valid()
      ensures p == 0 ==>
        View() == old(View()) && (View().b.NoLarge(nb) || (nb <= dvsize && View().b.LargeAtLeast(nb, dvsize)))
      ensures p != 0 ==> old(View()).Allocates(View(), p, nb) && old(View()).Chosen(p, nb)
    {
      var s;
      p, s := ChooseLarge(nb);
      if p != 0 {
        View().LargeChosen(p, s, nb);
        TakeLarge(p, s, nb);
      }
    }

    method TakeLarge(p: nat, s: nat, nb: nat)
      requires Valid() && View().b.Holds(p, s) && !IsSmall(s) && p != 0
      requires MIN_CHUNK_SIZE <= nb <= s && nb % 8 == 0
      modifies this
      ensures Valid() && old(View()).Allocates(View(), p, nb)
    {
      ghost var h0 := View();
      h0.FromBinAllocates(p, nb, false);
      hide Heap.Allocates, Layout.Ok, Bins.Ok;
      CarveLarge(p, s, nb);
      if s - nb >= MIN_CHUNK_SIZE { InsertChunk(p + nb, s - nb); }
      assert View() == h0.FromBin(p, nb, false);
    }

    // ----- malloc -----

    /** Splits or exhausts the designated victim. */
    method UseDv(nb: nat) returns (p: nat)
      requires Valid() && MIN_CHUNK_SIZE <= nb <= dvsize && nb % 8 == 0
      modifies this
      ensures Valid() && p == old(dv) != 0 && old(View()).Allocates(View(), p, nb)
    {
      ghost var h0 := View();
      h0.FromDvAllocates(nb);
      p := dv;
      h0.l.FreeHasUsedNeighbours(p);
      var rsize := dvsize - nb;
      if rsize >= MIN_CHUNK_SIZE {
        h0.l.NotInside(p, p + nb);
        SplitFree(p, nb, dvsize);
        dv := p + nb;
        dvsize := rsize;
      } else {
        var dvs := dvsize;
        dvsize := 0;
        dv := 0;
        SetInuseAndPinuse(p, dvs);
      }
      assert View() == h0.FromDv(nb);
    }

    /** Takes the first part of the top. */
    method UseTop(nb: nat) returns (p: nat)
      requires Valid() && MIN_CHUNK_SIZE <= nb < topsize && nb % 8 == 0
      modifies this
      ensures Valid() && p == old(top) != 0 && old(View()).Allocates(View(), p, nb)
    {
      hide Heap.Inv, Heap.Allocates;
      ghost var h0 := View();
      h0.TopIs();
      h0.TopAllocates(nb);
      topsize := topsize - nb;
      p := top;
      top := p + nb;
      head := head[top := Word(topsize, false, true)];
      SetInuseChunk(p, nb);
      starts := starts + {top};
      prev := prev[top := p];
      assert View() == h0.(l := h0.l.Split(h0.l.top, nb));
    }

    /** The part of malloc for small requests; 0 leaves the request to the designated
        victim or the top. */
    method MallocSmall(nb: nat) returns (p: nat)
      requires Valid() && MIN_CHUNK_SIZE <= nb < 256 && nb % 8 == 0
      modifies this
      ensures Valid()
      ensures p == 0 ==> View() == old(View()) && View().NoTightFit(nb) && (nb <= dvsize || View().b.NoneHeld(nb))
      ensures p != 0 ==> old(View()).Allocates(View(), p, nb) && old(View()).Chosen(p, nb)
    {
      var idx := nb / 8;
      if idx in smallmap || idx + 1 in smallmap {
        if idx !in smallmap { idx := idx + 1; }
        p := TakeBestSmall(idx, nb);
        return;
      }
      p := 0;
      if nb > dvsize {
        if exists k :: k in smallmap && idx <= k {
          var i := LeastBit(smallmap, idx);
          p := TakeBestSmall(i, nb);
        } else if treemap != {} {
          p := TmallocSmall(nb);
        } else {
          View().b.OnlyLargeFit(nb);
          View().b.NoTreeNoLarge();
        }
      }
    }

    /** Takes from the first small bin in use that fits. */
    method TakeBestSmall(i: nat, nb: nat) returns (p: nat)
      requires Valid() && i in smallmap && MIN_CHUNK_SIZE <= nb <= i * 8 && nb % 8 == 0
      requires forall k :: k in smallmap && nb / 8 <= k ==> i <= k
      requires i * 8 < nb + MIN_CHUNK_SIZE || dvsize < nb
      modifies this
      ensures Valid() && p != 0 && old(View()).Allocates(View(), p, nb) && old(View()).Chosen(p, nb)
    {
      FirstOfSmall(i);
      View().b.FirstSmallLeast(i, nb);
      View().BinnedChosen(smallbins[i][0], i * 8, nb);
      p := SplitSmall(i, nb);
    }

    /** lj_alloc_malloc. A request fails exactly when it is too big, or neither a free
        chunk nor the top has room for it. */
    method Malloc(nsize: nat) returns (mem: nat)
      requires Valid() && nsize < W64
      modifies this
      ensures Valid()
      ensures mem == 0 <==>
        nsize >= MAX_REQUEST || (old(View()).NoFreeFit(RequestToSize(nsize)) && old(topsize) <= RequestToSize(nsize))
      ensures mem == 0 ==> View() == old(View())
      ensures mem != 0 ==>
        mem > MEM_OFFSET && old(View()).Allocates(View(), mem - MEM_OFFSET, RequestToSize(nsize)) &&
        old(View()).Chosen(mem - MEM_OFFSET, RequestToSize(nsize))
    {
      var nb, p := RequestToSize(nsize), 0;
      RequestFits(nsize);
      if nsize <= MAX_SMALL_REQUEST {
        p := MallocSmall(nb);
      } else if nsize >= MAX_REQUEST {
        return 0;
      } else if treemap != {} {
        p := TmallocLarge(nb);
      } else {
        View().b.NoTreeNoLarge();
      }
      if p == 0 { p := MallocRest(nb); }
      mem := if p == 0 then 0 else p + MEM_OFFSET;
    }

    /** The end of malloc: the designated victim, the top, or nothing. */
    method MallocRest(nb: nat) returns (p: nat)
      requires Valid() && MIN_CHUNK_SIZE <= nb && nb % 8 == 0
      requires if nb < 256 then View().NoTightFit(nb) && (nb <= dvsize || View().b.NoneHeld(nb))
        else View().b.NoLarge(nb) || (nb <= dvsize && View().b.LargeAtLeast(nb, dvsize))
      modifies this
      ensures Valid()
      ensures p == 0 ==> View() == old(View()) && View().NoFreeFit(nb) && topsize <= nb
      ensures p != 0 ==> old(View()).Allocates(View(), p, nb) && old(View()).Chosen(p, nb)
    {
      if nb <= dvsize {
        if nb < 256 { View().DvChosenSmall(nb); } else { View().DvChosenLarge(nb); }
        p := UseDv(nb);
        return;
      }
      View().NothingFits(nb);
      p := 0;
      if nb < topsize { p := UseTop(nb); }
    }

    // ----- free -----

    /** set_free_with_pinuse */
    method SetFreeWithPinuse(p: nat, s: nat, n: nat)
      requires n in head
      modifies this`head, this`foot
      ensures var h0 := old(head)[n := old(head)[n].(pinuse := false)];
        head == h0[p := Word(s, false, true)] && foot == old(foot)[p + s := s]
    {
      head := head[n := head[n].(pinuse := false)];
      SetFreeChunk(p, s);
    }

    /** alloc_trim on one arena: the segment holds its own record, so that it is never
        shrunk, and there is no other to release; further trimming is disabled. */
    method Trim()
      modifies this`trimCheck, this`releaseChecks
      ensures releaseChecks > 0 && trimCheck == if topsize > old(trimCheck) then MAX_SIZE_T else old(trimCheck)
    {
      ReleaseUnusedSegments();
      if topsize > trimCheck { trimCheck := MAX_SIZE_T; }
    }

    /** release_unused_segments, when there is only one segment. */
    method ReleaseUnusedSegments()
      modifies this`releaseChecks
      ensures releaseChecks == MAX_RELEASE_CHECK_RATE
    {
      releaseChecks := MAX_RELEASE_CHECK_RATE;
    }

    /** lj_alloc_free */
    method Free(ptr: nat)
      requires Valid() && (ptr != 0 ==> ptr >= MEM_OFFSET && View().l.Used(ptr - MEM_OFFSET))
      modifies this
      ensures Valid()
      ensures ptr == 0 ==> View() == old(View())
      ensures ptr != 0 ==> old(View()).Frees(View(), ptr - MEM_OFFSET)
    {
      if ptr == 0 { return; }
      var p := ptr - MEM_OFFSET;
      View().FreedFrees(p);
      View().IsFreeable(p);
      View().FreedTop(p);
      View().IsUnlinkable(p);
      FreeChunk(p);
    }

    /** Merges a chunk with its free neighbours and finds a place for the result. */
    method FreeChunk(p0: nat)
      requires View().Freeable(p0) && topsize == head[top].size && releaseChecks > 0
      requires !head[p0].pinuse ==> View().Unlinkable(View().l.Left(p0))
      requires var n := View().l.Next(p0);
        !head[n].cinuse && n != top ==> View().LooseLeft(p0).Unlinkable(n)
      modifies this
      ensures View() == old(View()).Freed(p0) && releaseChecks > 0
      ensures var l := old(View()).l;
        topsize == if l.Next(p0) == l.top then l.Right(p0) - l.Left(p0) else old(topsize)
    {
      var p := p0;
      ghost var h0 := View();
      var psize := head[p].size;
      var next := p + psize;
      if !head[p].pinuse {
        var prevsize := foot[p];
        p := p - prevsize;
        psize := psize + prevsize;
        if p != dv {
          UnlinkChunk(p, prevsize);
        } else if head[next].cinuse && head[next].pinuse {
          FreeOntoDv(h0, p0, p, psize, next);
          return;
        }
      }
      if !head[next].cinuse {
        if next == top {
          FreeOntoTop(h0, p0, p, psize, next);
        } else if next == dv {
          FreeOntoNextDv(h0, p0, p, psize, next);
        } else {
          FreeOntoBinned(h0, p0, p, psize, next);
        }
      } else {
        FreeOntoUsed(h0, p0, p, psize, next);
      }
    }

    /** Free has looked back from `p0`: `p` is where the merged chunk starts. */
    ghost predicate Backed(h0: Heap, p0: nat, p: nat, psize: nat, next: nat)
      reads this
    {
      h0.Freeable(p0) && p == h0.l.Left(p0) && next == h0.l.Next(p0) && psize == next - p &&
      View() == h0.(b := h0.LooseLeft(p0).b) && (p == dv ==> !h0.l.head[p0].pinuse) &&
      topsize == head[top].size && releaseChecks > 0
    }

    /** free, when the designated victim comes before and a chunk in use after. */
    method FreeOntoDv(ghost h0: Heap, ghost p0: nat, p: nat, psize: nat, next: nat)
      requires Backed(h0, p0, p, psize, next) && p == dv && head[next].cinuse
      modifies this
      ensures View() == h0.Freed(p0) && releaseChecks > 0 && topsize == old(topsize)
    {
      h0.MergedWords(p0);
      h0.FreedPlaces(p0);
      Merge(p, next);
      dvsize := psize;
      SetFreeWithPinuse(p, psize, next);
    }

    /** free, when the top follows. */
    method FreeOntoTop(ghost h0: Heap, ghost p0: nat, p: nat, psize: nat, ghost next: nat)
      requires Backed(h0, p0, p, psize, next) && next == top && !head[next].cinuse
      modifies this
      ensures View() == h0.Freed(p0) && releaseChecks > 0 && topsize == h0.l.Right(p0) - p
    {
      h0.MergedWords(p0);
      h0.FreedPlaces(p0);
      Merge(p, h0.l.Right(p0));
      FreeIntoTop(p, psize);
      assert View().l == h0.Freed(p0).l;
    }

    /** free, when the designated victim follows. */
    method FreeOntoNextDv(ghost h0: Heap, ghost p0: nat, p: nat, psize: nat, ghost next: nat)
      requires Backed(h0, p0, p, psize, next) && next == dv
      modifies this
      ensures View() == h0.Freed(p0) && releaseChecks > 0 && topsize == old(topsize)
    {
      h0.MergedWords(p0);
      h0.FreedPlaces(p0);
      Merge(p, h0.l.Right(p0));
      dvsize := dvsize + psize;
      dv := p;
      SetFreeChunk(p, dvsize);
      assert View().l == h0.Freed(p0).l;
    }

    /** free, when a binned chunk follows. */
    method FreeOntoBinned(ghost h0: Heap, ghost p0: nat, p: nat, psize: nat, next: nat)
      requires Backed(h0, p0, p, psize, next) && !head[next].cinuse && next != top && next != dv
      requires h0.LooseLeft(p0).Unlinkable(next)
      modifies this
      ensures View() == h0.Freed(p0) && releaseChecks > 0 && topsize == old(topsize)
    {
      h0.MergedWords(p0);
      h0.FreedPlaces(p0);
      Merge(p, h0.l.Right(p0));
      FreeWithNext(p, psize, next);
      assert View().l == h0.Freed(p0).l;
    }

    /** free, when a chunk in use follows. */
    method FreeOntoUsed(ghost h0: Heap, ghost p0: nat, p: nat, psize: nat, next: nat)
      requires Backed(h0, p0, p, psize, next) && head[next].cinuse && p != dv
      modifies this
      ensures View() == h0.Freed(p0) && releaseChecks > 0 && topsize == old(topsize)
    {
      h0.MergedWords(p0);
      h0.FreedPlaces(p0);
      Merge(p, next);
      FreeAlone(p, psize, next);
      assert View().l == h0.Freed(p0).l;
    }

    method FreeIntoTop(p: nat, psize: nat)
      requires releaseChecks > 0
      modifies this`head, this`top, this`topsize, this`dv, this`dvsize, this`trimCheck, this`releaseChecks
      ensures topsize == old(topsize) + psize && top == p && head == old(head)[p := Word(topsize, false, true)]
      ensures dv == (if old(dv) == p then 0 else old(dv)) && dvsize == (if old(dv) == p then 0 else old(dvsize))
      ensures releaseChecks > 0
    {
      topsize := topsize + psize;
      top := p;
      head := head[p := Word(topsize, false, true)];
      if p == dv { dv, dvsize := 0, 0; }
      if topsize > trimCheck { Trim(); }
    }

    method FreeWithNext(p: nat, psize: nat, next: nat)
      requires |smallbins| == NSMALLBINS && |treebins| == NTREEBINS && releaseChecks > 0
      requires next in head && (IsSmall(head[next].size) ==> head[next].size / 8 in smallmap)
      modifies this`head, this`foot, this`smallmap, this`smallbins, this`treemap, this`treebins
      modifies this`dvsize, this`releaseChecks
      ensures var nsize := old(head)[next].size;
        var s, b := psize + nsize, old(View()).b.RemoveChunk(next, nsize);
        head == old(head)[p := Word(s, false, true)] && foot == old(foot)[p + s := s] &&
        View().b == (if p == dv then b else b.InsertChunk(p, s)) && dvsize == (if p == dv then s else old(dvsize))
      ensures releaseChecks > 0
    {
      var nsize := head[next].size;
      UnlinkChunk(next, nsize);
      SetFreeChunk(p, psize + nsize);
      if p == dv {
        dvsize := psize + nsize;
        return;
      }
      BinFreed(p, psize + nsize);
    }

    method FreeAlone(p: nat, psize: nat, next: nat)
      requires |smallbins| == NSMALLBINS && |treebins| == NTREEBINS && next in head && releaseChecks > 0
      modifies this`head, this`foot, this`smallmap, this`smallbins, this`treemap, this`treebins
      modifies this`releaseChecks
      ensures var h := old(head)[next := old(head)[next].(pinuse := false)];
        head == h[p := Word(psize, false, true)] && foot == old(foot)[p + psize := psize]
      ensures View().b == old(View()).b.InsertChunk(p, psize) && releaseChecks > 0
    {
      SetFreeWithPinuse(p, psize, next);
      BinFreed(p, psize);
    }

    /** What the proof knows of a merge. */
    ghost method Merge(a: nat, e: nat)
      requires a <= e
      modifies this`starts, this`prev
      ensures starts == old(View()).l.Merged(a, e).starts && prev == old(View()).l.Merged(a, e).prev
    {
      starts := set q | q in starts && !(a < q < e) :: q;
      if e < end && e in head { prev := prev[e := a]; }
    }

    /** The merged chunk goes into its bin. */
    method BinFreed(p: nat, psize: nat)
      requires |smallbins| == NSMALLBINS && |treebins| == NTREEBINS && releaseChecks > 0
      modifies this`smallmap, this`smallbins, this`treemap, this`treebins, this`releaseChecks
      ensures View().b == old(View()).b.InsertChunk(p, psize) && releaseChecks > 0
    {
      if IsSmall(psize) {
        InsertSmallChunk(p, psize);
      } else {
        InsertLargeChunk(p, psize);
        releaseChecks := releaseChecks - 1;
        if releaseChecks == 0 { ReleaseUnusedSegments(); }
      }
    }

    // ----- realloc -----

    /** set_inuse. The word after the chunk need not be a header yet. */
    method SetInuse(p: nat, s: nat)
      requires p in head
      modifies this`head
      ensures head == var h := old(head)[p := Word(s, true, old(head)[p].pinuse)];
        h[p + s := (if p + s in h then h[p + s] else Word(0, false, false)).(pinuse := true)]
    {
      head := head[p := Word(s, true, head[p].pinuse)];
      head := head[p + s := (if p + s in head then head[p + s] else Word(0, false, false)).(pinuse := true)];
    }

    /** Gives the end of a chunk in use back. */
    method Shrink(p: nat, nb: nat)
      requires Valid() && View().l.Used(p) && MIN_CHUNK_SIZE <= nb && nb % 8 == 0
      requires nb + MIN_CHUNK_SIZE <= head[p].size
      modifies this
      ensures Valid() && old(View()).Resizes(View(), p, nb)
    {
      hide Heap.Inv, Heap.Resizes, Heap.Frees, Heap.SameUsed;
      ghost var h0 := View();
      h0.UsedIs(p, nb);
      h0.UsedSplit(p, nb, {});
      SplitInuse(p, nb);
      Free(p + nb + MEM_OFFSET);
      h0.EndFreed(View(), p, nb);
    }

    /** The words of a chunk in use split into two. */
    method SplitInuse(p: nat, nb: nat)
      requires p in head && 0 < nb < head[p].size && p + head[p].size in head && head[p + head[p].size].pinuse
      requires head[p].cinuse && p != top && p + nb != top
      modifies this`head, this`starts, this`prev
      ensures View() == old(View()).(l := old(View()).l.SplitUsed(p, nb))
      ensures top in old(head) ==> top in head && head[top].size == old(head)[top].size
    {
      var rem, rsize := p + nb, head[p].size - nb;
      SetInuse(p, nb);
      SetInuse(rem, rsize);
      starts := starts + {rem};
      prev := prev[rem := p][rem + rsize := rem];
    }

    /** Grows a chunk in use into the top. */
    method Grow(p: nat, nb: nat)
      requires Valid() && View().l.Used(p) && View().l.Next(p) == top && nb % 8 == 0
      requires head[p].size < nb < head[p].size + topsize
      modifies this
      ensures Valid() && old(View()).Resizes(View(), p, nb)
    {
      ghost var h0 := View();
      h0.TopIs();
      h0.GrownIntoTop(p, nb, {});
      hide Heap.Inv, Heap.Resizes, Heap.SameUsed;
      var newsize := head[p].size + topsize;
      var newtopsize := newsize - nb;
      var newtop := p + nb;
      SetInuse(p, nb);
      head := head[newtop := Word(newtopsize, false, true)];
      starts := starts - {top} + {newtop};
      prev := prev[newtop := p];
      top := newtop;
      topsize := newtopsize;
      assert View() == h0.(l := h0.l.TopMoved(p, nb));
    }

    /** lj_alloc_realloc of a block. It fails exactly when the request is too big, or the
        block can neither stay nor grow into the top and malloc fails. A block that moves
        keeps its contents, up to its old size or the new one; nothing else in memory
        changes. */
    method Realloc(ptr: nat, nsize: nat) returns (mem: nat)
      requires Valid() && ptr >= MEM_OFFSET && View().l.Used(ptr - MEM_OFFSET) && nsize < W64
      modifies this, memory
      ensures Valid()
      ensures mem == 0 || mem == ptr ==> memory.bytes == old(memory.bytes)
      ensures mem != 0 && mem != ptr ==>
        var n := Min(old(View().l.Size(ptr - MEM_OFFSET)) - CHUNK_OVERHEAD, nsize);
        forall a: nat {:trigger Byte(memory.bytes, a)} ::
          Byte(memory.bytes, a) == Byte(old(memory.bytes), if mem <= a < mem + n then a - mem + ptr else a)
      ensures var p, nb := ptr - MEM_OFFSET, RequestToSize(nsize);
        mem == 0 <==>
          nsize >= MAX_REQUEST ||
          (old(View().l.Size(p)) < nb && old(View()).NoFreeFit(nb) && old(topsize) <= nb &&
           !(old(View().l.Next(p)) == old(top) && old(View().l.Size(p) + topsize) > nb))
      ensures mem == 0 ==> View() == old(View())
      ensures mem == ptr ==> old(View()).Resizes(View(), ptr - MEM_OFFSET, RequestToSize(nsize))
      ensures mem != 0 && mem != ptr ==>
        mem > MEM_OFFSET && old(View()).Moves(View(), ptr - MEM_OFFSET, mem - MEM_OFFSET, RequestToSize(nsize))
    {
      if nsize >= MAX_REQUEST { return 0; }
      var p := ptr - MEM_OFFSET;
      var oldsize := head[p].size;
      var nb := RequestToSize(nsize);
      RequestFits(nsize);
      if oldsize >= nb {
        if oldsize - nb >= MIN_CHUNK_SIZE { Shrink(p, nb); }
        return ptr;
      }
      if p + oldsize == top && oldsize + topsize > nb {
        Grow(p, nb);
        return ptr;
      }
      ghost var h0 := View();
      mem := Malloc(nsize);
      if mem != 0 {
        ghost var h1 := View();
        ChunksApart(h0, h1, p, mem - MEM_OFFSET, nsize);
        memory.Copy(ptr, mem, Min(oldsize - CHUNK_OVERHEAD, nsize));
        Free(ptr);
        h0.MovedBy(h1, View(), p, mem - MEM_OFFSET, nb);
      }
    }

    // ----- runs -----

    /** Any requests of a program that only gives back blocks it has; `mems` are the
        answers. Of the blocks that it has then, each has room for what was asked for and
        holds what was written into it, wherever it was moved; no two overlap. */
    method Run(requests: seq<Request>) returns (mems: seq<nat>)
      requires Valid() && Tracks(View(), map[])
      modifies this, memory
      ensures |mems| == |requests| && Valid()
      ensures var b := Replay(requests, mems, |requests|);
        Tracks(View(), b.live) && Disjoint(b.live, base, end) && Holds(memory.bytes, b)
    {
      mems := [];
      for i := 0 to |requests|
        invariant |mems| == i && Valid()
        invariant Tracks(View(), Replay(requests, mems, i).live) && Holds(memory.bytes, Replay(requests, mems, i))
      {
        var mem := Serve(requests[i], Replay(requests, mems, i));
        ReplaySame(requests, mems, mems + [mem], i);
        mems := mems + [mem];
      }
      LiveDisjoint(View(), Replay(requests, mems, |requests|).live);
    }

    /** One request of a program that has the blocks `b`. */
    method Serve(r: Request, b: Blocks) returns (mem: nat)
      requires Valid() && Tracks(View(), b.live) && Holds(memory.bytes, b)
      modifies this, memory
      ensures Valid() && Tracks(View(), After(b, r, mem).live) && Holds(memory.bytes, After(b, r, mem))
      ensures r.Ask? && mem != 0 ==> mem !in b.live
      ensures r.Ask? ==> (mem == 0 <==>
        r.nsize % W64 >= MAX_REQUEST ||
        (old(View()).NoFreeFit(RequestToSize(r.nsize % W64)) && old(topsize) <= RequestToSize(r.nsize % W64)))
    {
      hide Tracks, Heap.Inv, Heap.Frees, Heap.Resizes, Heap.Moves, Heap.Allocates, Layout.Used, Heap.NoFreeFit, Holds;
      mem := 0;
      ghost var h, live := View(), b.live;
      h.BaseFirst();
      match r {
        case Ask(nsize) =>
          mem := Malloc(nsize % W64);
          if mem != 0 {
            AskTracked(h, View(), live, mem, nsize % W64);
            AskHolds(memory.bytes, b, mem, nsize);
          }
        case GiveBack(ptr) =>
          if ptr in b.live {
            LiveUsed(h, live, ptr);
            Free(ptr);
            FreeTracked(h, View(), live, ptr);
          } else {
            assert live - {ptr} == live;
          }
          FreeHolds(memory.bytes, b, ptr);
        case Resize(ptr, nsize) =>
          if ptr in b.live { mem := ServeResize(ptr, nsize, b); }
        case Fill(ptr, text) =>
          if ptr in b.live && |text| <= b.live[ptr] {
            LiveDisjoint(h, live);
            ghost var was := memory.bytes;
            memory.Write(ptr, text);
            FillHolds(was, memory.bytes, b, ptr, text, base, end);
          }
      }
    }

    method ServeResize(ptr: nat, nsize: nat, b: Blocks) returns (mem: nat)
      requires Valid() && Tracks(View(), b.live) && Holds(memory.bytes, b) && ptr in b.live
      modifies this, memory
      ensures Valid()
      ensures var b' := After(b, Resize(ptr, nsize), mem); Tracks(View(), b'.live) && Holds(memory.bytes, b')
    {
      assert ptr in b.held;
      hide Tracks, Heap.Inv, Heap.Resizes, Heap.Moves, Layout.Used, Heap.NoFreeFit, Holds, Disjoint;
      ghost var h, live, was := View(), b.live, memory.bytes;
      h.BaseFirst();
      LiveUsed(h, live, ptr);
      mem := Realloc(ptr, nsize % W64);
      if mem != 0 {
        ResizeTracked(h, View(), live, ptr, mem, nsize % W64);
        LiveDisjoint(View(), After(b, Resize(ptr, nsize), mem).live);
        ResizeHolds(h, was, memory.bytes, b, ptr, mem, nsize, base, end);
      }
    }
  }

  // ----- live blocks -----

  /** The chunk of a block is in use, and has room for `n` bytes. */
  ghost predicate Room(h: Heap, mem: nat, n: nat) {
    mem > h.l.base + MEM_OFFSET && h.l.Used(mem - MEM_OFFSET) && RequestToSize(n) <= h.l.Size(mem - MEM_OFFSET)
  }

  /** The chunks in use are the allocator's own and one for each live block, with room for
      what was asked for. */
  ghost predicate Tracks(h: Heap, live: map<nat, nat>) {
    (forall mem <- live.Keys :: Room(h, mem, live[mem])) &&
    forall p: nat {:trigger h.l.Used(p)} :: h.l.Used(p) <==> p == h.l.base || p + MEM_OFFSET in live
  }

  /** The blocks lie within the arena, and apart. */
  ghost predicate Disjoint(live: map<nat, nat>, base: nat, end: nat) {
    (forall m <- live.Keys :: base < m && m + live[m] <= end) &&
    forall m <- live.Keys, n <- live.Keys :: m < n ==> m + live[m] <= n
  }

  lemma {:induction false} LiveUsed(h: Heap, live: map<nat, nat>, mem: nat)
    requires Tracks(h, live) && mem in live
    ensures mem > h.l.base + MEM_OFFSET && h.l.Used(mem - MEM_OFFSET)
  {
    assert Room(h, mem, live[mem]);
  }

  lemma {:induction false} NewBlock(h: Heap, h': Heap, p: nat)
    requires h'.Inv({}) && h'.l.base == h.l.base && h.l.Used(h.l.base) && !h.l.Used(p) && h'.l.Used(p)
    ensures p > h.l.base
  {
    h'.BaseFirst();
  }

  lemma {:induction false} AskTracked(h: Heap, h': Heap, live: map<nat, nat>, mem: nat, nsize: nat)
    requires Tracks(h, live) && h'.Inv({}) && mem >= MEM_OFFSET && h'.l.base == h.l.base
    requires h.Allocates(h', mem - MEM_OFFSET, RequestToSize(nsize))
    ensures mem !in live && Tracks(h', live[mem := nsize])
  {
    assert h.l.Used(mem - MEM_OFFSET) <==> mem - MEM_OFFSET == h.l.base || mem in live;
    assert h.l.Used(h.l.base);
    NewBlock(h, h', mem - MEM_OFFSET);
    Kept(h, h', live, mem - MEM_OFFSET);
  }

  /** Blocks at other chunks than `p` keep their room. */
  lemma {:induction false} Kept(h: Heap, h': Heap, live: map<nat, nat>, p: nat)
    requires Tracks(h, live) && h.SameUsed(h', p) && h'.l.base == h.l.base
    ensures forall mem <- live.Keys :: mem != p + MEM_OFFSET ==> Room(h', mem, live[mem])
  {
    forall mem <- live.Keys | mem != p + MEM_OFFSET ensures Room(h', mem, live[mem]) {
      assert Room(h, mem, live[mem]);
    }
  }

  lemma {:induction false} FreeTracked(h: Heap, h': Heap, live: map<nat, nat>, mem: nat)
    requires Tracks(h, live) && mem in live && h'.l.base == h.l.base
    requires mem > h.l.base + MEM_OFFSET && h.Frees(h', mem - MEM_OFFSET)
    ensures Tracks(h', live - {mem})
  {
    Kept(h, h', live, mem - MEM_OFFSET);
    assert h.l.Used(h.l.base);
  }

  lemma {:induction false} ResizeTracked(h: Heap, h': Heap, live: map<nat, nat>, ptr: nat, mem: nat, nsize: nat)
    requires Tracks(h, live) && h'.Inv({}) && ptr in live && h'.l.base == h.l.base && ptr > h.l.base + MEM_OFFSET &&
      mem >= MEM_OFFSET
    requires mem == ptr ==> h.Resizes(h', ptr - MEM_OFFSET, RequestToSize(nsize))
    requires mem != ptr ==> h.Moves(h', ptr - MEM_OFFSET, mem - MEM_OFFSET, RequestToSize(nsize))
    ensures Tracks(h', (live - {ptr})[mem := nsize])
  {
    if mem == ptr {
      Kept(h, h', live, ptr - MEM_OFFSET);
    } else {
      MoveTracked(h, h', live, ptr, mem, nsize);
    }
  }

  lemma {:induction false} MoveTracked(h: Heap, h': Heap, live: map<nat, nat>, ptr: nat, mem: nat, nsize: nat)
    requires Tracks(h, live) && h'.Inv({}) && ptr in live && h'.l.base == h.l.base && ptr > h.l.base + MEM_OFFSET
    requires mem >= MEM_OFFSET && h.Moves(h', ptr - MEM_OFFSET, mem - MEM_OFFSET, RequestToSize(nsize))
    ensures Tracks(h', (live - {ptr})[mem := nsize])
  {
    var now := (live - {ptr})[mem := nsize];
    assert h.l.Used(h.l.base);
    NewBlock(h, h', mem - MEM_OFFSET);
    forall m <- now.Keys ensures Room(h', m, now[m]) {
      if m != mem { assert Room(h, m, live[m]); }
    }
  }

  lemma {:induction false} LiveDisjoint(h: Heap, live: map<nat, nat>)
    requires h.Inv({}) && Tracks(h, live)
    ensures Disjoint(live, h.l.base, h.l.end)
  {
    h.BaseFirst();
    forall m <- live.Keys ensures h.l.base < m && m + live[m] <= h.l.end {
      LiveUsed(h, live, m);
      BlocksApart(h, m - MEM_OFFSET, h.l.base, live[m]);
    }
    forall m <- live.Keys, n <- live.Keys | m < n ensures m + live[m] <= n {
      LiveUsed(h, live, m);
      LiveUsed(h, live, n);
      BlocksApart(h, m - MEM_OFFSET, n - MEM_OFFSET, live[m]);
    }
  }


  // ----- contents -----

  /** The block at `mem` starts with the text. */
  ghost predicate Starts(bytes: map<nat, nat>, mem: nat, text: seq<nat>) {
    forall i {:trigger text[i]} :: 0 <= i < |text| ==> Byte(bytes, mem + i) == text[i]
  }

  /** The blocks hold what was written. */
  ghost predicate Holds(bytes: map<nat, nat>, b: Blocks) {
    b.held.Keys == b.live.Keys &&
    forall m {:trigger b.held[m]} :: m in b.live ==> |b.held[m]| <= b.live[m] && Starts(bytes, m, b.held[m])
  }

  lemma {:induction false} AskHolds(bytes: map<nat, nat>, b: Blocks, mem: nat, nsize: nat)
    requires Holds(bytes, b)
    ensures Holds(bytes, After(b, Ask(nsize), mem))
  {
  }

  lemma {:induction false} FreeHolds(bytes: map<nat, nat>, b: Blocks, ptr: nat)
    requires Holds(bytes, b)
    ensures Holds(bytes, After(b, GiveBack(ptr), 0))
  {
    assert forall m :: m in b.live && m != ptr ==> b.held[m] == (b.held - {ptr})[m];
  }

  /** Changes from `lo` to `hi` leave a block alone that lies elsewhere. */
  lemma {:induction false} StartsKept(was: map<nat, nat>, now: map<nat, nat>, mem: nat, text: seq<nat>, lo: nat,
                                      hi: nat)
    requires Starts(was, mem, text) && (mem + |text| <= lo || hi <= mem)
    requires forall a: nat {:trigger Byte(now, a)} :: !(lo <= a < hi) ==> Byte(now, a) == Byte(was, a)
    ensures Starts(now, mem, text)
  {
  }

  lemma {:induction false} FillHolds(was: map<nat, nat>, now: map<nat, nat>, b: Blocks, ptr: nat, text: seq<nat>,
                                     base: nat, end: nat)
    requires Holds(was, b) && ptr in b.live && |text| <= b.live[ptr] && Disjoint(b.live, base, end)
    requires forall a: nat {:trigger Byte(now, a)} ::
      Byte(now, a) == if ptr <= a < ptr + |text| then text[a - ptr] else Byte(was, a)
    ensures Holds(now, After(b, Fill(ptr, text), 0))
  {
    var b' := After(b, Fill(ptr, text), 0);
    forall m {:trigger b'.held[m]} | m in b'.live
      ensures |b'.held[m]| <= b'.live[m] && Starts(now, m, b'.held[m])
    {
      if m != ptr { StartsKept(was, now, m, b.held[m], ptr, ptr + |text|); }
    }
  }

  lemma {:induction false} ResizeHolds(h: Heap, was: map<nat, nat>, now: map<nat, nat>, b: Blocks, ptr: nat, mem: nat,
                                       nsize: nat, base: nat, end: nat)
    requires Holds(was, b) && Tracks(h, b.live) && ptr in b.live && mem != 0
    requires ptr >= MEM_OFFSET && h.l.Used(ptr - MEM_OFFSET)
    requires Disjoint(After(b, Resize(ptr, nsize), mem).live, base, end)
    requires mem == ptr ==> now == was
    requires mem != ptr ==>
      var n := Min(h.l.Size(ptr - MEM_OFFSET) - CHUNK_OVERHEAD, nsize % W64);
      forall a: nat {:trigger Byte(now, a)} ::
        Byte(now, a) == Byte(was, if mem <= a < mem + n then a - mem + ptr else a)
    ensures Holds(now, After(b, Resize(ptr, nsize), mem))
  {
    var b', text := After(b, Resize(ptr, nsize), mem), b.held[ptr];
    var kept := text[..Min(|text|, nsize % W64)];
    assert Room(h, ptr, b.live[ptr]);
    RequestFits(b.live[ptr]);
    assert Starts(was, ptr, text);
    if mem != ptr {
      forall i {:trigger kept[i]} | 0 <= i < |kept| ensures Byte(now, mem + i) == kept[i] {
        assert kept[i] == text[i];
      }
    } else {
      forall i {:trigger kept[i]} | 0 <= i < |kept| ensures Byte(now, mem + i) == kept[i] {
        assert kept[i] == text[i];
      }
    }
    assert Starts(now, mem, kept);
    forall m {:trigger b'.held[m]} | m in b'.live
      ensures |b'.held[m]| <= b'.live[m] && Starts(now, m, b'.held[m])
    {
      if m != mem {
        assert m in b.live && b'.held[m] == b.held[m] && b'.live[m] == b.live[m];
        if mem != ptr { StartsKept(was, now, m, b.held[m], mem, mem + nsize % W64); }
      }
    }
  }

  /** The old and the new block of a move do not overlap. */
  lemma {:induction false} ChunksApart(h0: Heap, h1: Heap, p: nat, q: nat, nsize: nat)
    requires h1.Inv({}) && h0.l.Used(p) && h0.Allocates(h1, q, RequestToSize(nsize))
    ensures var n := Min(h0.l.Size(p) - CHUNK_OVERHEAD, nsize);
      n >= 0 && (p + MEM_OFFSET + n <= q + MEM_OFFSET || q + MEM_OFFSET + n <= p + MEM_OFFSET)
  {
    assert h1.l.Used(p) && h1.l.Used(q) && h1.l.Size(p) == h0.l.Size(p);
    h1.l.About(p);
    h1.l.Apart(p, q);
    RequestFits(nsize);
  }

  /** Whatever the allocator writes, a header word, the foot of a free chunk, or links in
      a free chunk, lies outside of the blocks in use. */
  lemma {:induction false} WordsApart(h: Heap, p: nat, q: nat)
    requires h.Inv({}) && h.l.Used(p) && q in h.l.starts && q in h.l.head
    ensures var mem, limit := p + MEM_OFFSET, p + h.l.Size(p) + CHUNK_OVERHEAD;
      (q + MEM_OFFSET <= mem || limit <= q + CHUNK_OVERHEAD) &&
      (!h.l.head[q].pinuse ==> q + CHUNK_OVERHEAD <= mem || limit <= q) &&
      (h.l.Free(q) ==> q + h.l.Size(q) <= mem || limit <= q + MEM_OFFSET)
  {
    h.l.About(p);
    h.l.About(q);
    h.l.Apart(p, q);
    h.l.About(h.l.Next(p));
    h.l.Apart(h.l.Next(p), q);
  }

  /** Blocks in use lie in the arena, offer what was asked for, and do not overlap. A
      block ends with the foot word of the next chunk. */
  lemma {:induction false} BlocksApart(h: Heap, p: nat, q: nat, nsize: nat)
    requires h.Inv({}) && h.l.Used(p) && h.l.Used(q) && p != q
    requires RequestToSize(nsize) <= h.l.Size(p)
    ensures h.l.base <= p && p + MEM_OFFSET + nsize <= p + h.l.Size(p) + CHUNK_OVERHEAD <= h.l.end
    ensures p + h.l.Size(p) + CHUNK_OVERHEAD < q + MEM_OFFSET || q + h.l.Size(q) + CHUNK_OVERHEAD < p + MEM_OFFSET
  {
    h.l.About(p);
    h.l.About(q);
    h.l.About(h.l.Next(p));
    assert h.l.Even(h.l.Next(p));
    h.EndEven(h.l.end);
    h.l.Apart(p, q);
    RequestFits(nsize);
  }

  lemma {:induction false} SubWraps(dvsize: nat, nb: nat, rsize: nat)
    requires dvsize < SIZE_LIMIT && nb + rsize < SIZE_LIMIT && 0 < nb
    ensures rsize < Sub64(dvsize, nb) <==> !(nb <= dvsize <= nb + rsize)
  {
    if dvsize >= nb {
      assert Sub64(dvsize, nb) == dvsize - nb;
    } else {
      assert Sub64(dvsize, nb) == W64 + dvsize - nb;
    }
  }
}
