/** The invariant of the heap of lj_alloc.c, as values: how chunks tile the arena, what
    the header words say, and which bin holds which free chunk. LjAlloc changes such
    values in place; the lemmas here say what its changes keep. */
module LjHeap {
  import opened LjTree

  const MIN_CHUNK_SIZE: nat := 32
  const NSMALLBINS: nat := 32

  // ----- layout -----

  /** The header word of a chunk: its size and two bits, in use and previous in use. */
  datatype Word = Word(size: nat, cinuse: bool, pinuse: bool)

  /** The chunks of the arena [base, end). `starts` holds their addresses and `prev`
      the address of the chunk before each; they are known to the proof only. The
      allocator itself sees header words (`head`), the sizes that free chunks store
      in the chunk after them (`foot`), and the last chunk, `top`. */
  datatype Layout = Layout(base: nat, end: nat, top: nat, head: map<nat, Word>, foot: map<nat, nat>,
                           starts: set<nat>, prev: map<nat, nat>)
  {
    predicate Chunk(p: nat) {
      base <= p < end && p in head && head[p].size > 0 &&
      if p == top then p + head[p].size == end
      else
        head[p].size >= MIN_CHUNK_SIZE && p + head[p].size < end && p + head[p].size in starts &&
        p + head[p].size in prev && prev[p + head[p].size] == p
    }

    /** The words of a chunk agree with the chunk before it; of two neighbours at
        least one is in use. */
    predicate Linked(p: nat) {
      p in head &&
      if p == base then head[p].pinuse
      else
        p in prev && prev[p] in starts && prev[p] in head &&
        var q := head[prev[p]];
        prev[p] + q.size == p && head[p].pinuse == q.cinuse &&
        (!q.cinuse ==> p in foot && foot[p] == q.size && head[p].cinuse)
    }

    predicate Sound(p: nat) { Chunk(p) && Linked(p) }

    ghost predicate Ok() {
      0 < base < end && end - base < SIZE_LIMIT && end < W64 &&
      base in starts && top in starts &&
      (forall p {:trigger Sound(p)} :: p in starts ==> Sound(p)) &&
      (forall p, q {:trigger Before(p, q)} :: p in starts && q in starts ==> Before(p, q)) &&
      top in head && !head[top].cinuse
    }

    /** Of two chunks, one ends before the other starts. */
    predicate Before(p: nat, q: nat) { p < q ==> p in head && p + head[p].size <= q }

    predicate Free(p: nat) { p in starts && p in head && !head[p].cinuse && p != top }

    /** Addresses and sizes are multiples of the alignment. */
    predicate Even(p: nat) { p % 8 == 0 && p in head && head[p].size % 8 == 0 }

    predicate Used(p: nat) { p in starts && p in head && head[p].cinuse }

    function Size(p: nat): nat
      requires p in head
    {
      head[p].size
    }

    function Next(p: nat): nat
      requires p in head
    {
      p + head[p].size
    }

    // ----- changes of the layout -----

    /** A free chunk, now in use as a whole. */
    function Taken(p: nat): Layout
      requires p in head && p + head[p].size in head
    {
      var n := p + head[p].size;
      this.(head := head[p := head[p].(cinuse := true)][n := head[n].(pinuse := true)])
    }

    /** A chunk split after `n` bytes: the first part in use, the rest free. */
    function Split(p: nat, n: nat): Layout
      requires p in head && n < head[p].size
    {
      var r, s := p + n, head[p].size - n;
      var split := this.(head := head[p := Word(n, true, head[p].pinuse)][r := Word(s, false, true)],
                         starts := starts + {r}, prev := prev[r := p]);
      if p == top then split.(top := r)
      else split.(foot := foot[r + s := s], prev := split.prev[r + s := r])
    }

    /** A chunk in use split into two chunks in use. */
    function SplitUsed(p: nat, n: nat): Layout
      requires p in head && n < head[p].size
    {
      var r, s := p + n, head[p].size - n;
      this.(head := head[p := Word(n, true, head[p].pinuse)][r := Word(s, true, true)],
            starts := starts + {r}, prev := prev[r := p][r + s := r])
    }

    /** The chunks from `a` up to `b` merged into one free chunk; `b` is the next chunk
        or the end of the arena, in which case the merged chunk is the top. */
    function Merged(a: nat, b: nat): Layout
      requires a <= b
    {
      var m := this.(head := head[a := Word(b - a, false, true)],
                     starts := set p | p in starts && !(a < p < b) :: p);
      if b >= end || b !in head then m.(top := a)
      else m.(head := m.head[b := m.head[b].(pinuse := false)], foot := foot[b := b - a],
              prev := prev[b := a])
    }

    /** The boundary between a chunk in use and the top moved to `p + n`. */
    function TopMoved(p: nat, n: nat): Layout
      requires p in head && p + n <= end
    {
      this.(head := head[p := Word(n, true, head[p].pinuse)][p + n := Word(end - (p + n), false, true)],
            starts := starts - {top} + {p + n}, prev := prev[p + n := p], top := p + n)
    }

    /** What Ok says about one chunk. */
    lemma {:induction false} About(p: nat)
      requires Ok() && p in starts
      ensures Chunk(p) && Linked(p) && (p != top ==> Sound(Next(p)))
    {
      assert Sound(p);
      if p != top { assert Sound(Next(p)); }
    }

    lemma {:induction false} FreeHasUsedNeighbours(p: nat)
      requires Ok() && Free(p)
      ensures Chunk(p) && head[p].pinuse && Used(Next(p)) && !head[Next(p)].pinuse
      ensures p != base ==> p in prev && Used(prev[p])
    {
      About(p);
    }

    /** No chunk starts inside another. */
    lemma {:induction false} NotInside(p: nat, r: nat)
      requires Ok() && p in starts && p < r && p in head && r < Next(p)
      ensures r !in starts
    {
      var clash := r in starts;
      assert clash ==> Before(p, r);
    }

    /** Of two chunks of this layout, each one ends before the other starts. */
    lemma {:induction false} Apart(p: nat, q: nat)
      requires Ok() && p in starts && q in starts
      ensures Before(p, q) && Before(q, p)
    {
      assert Before(p, q) && Before(q, p);
    }

    // ----- taking -----

    lemma {:induction false} TakenAt(p: nat, q: nat)
      requires Ok() && Free(p) && q in starts
      ensures Next(p) in head && Taken(p).Sound(q)
    {
      FreeHasUsedNeighbours(p);
      About(q);
    }

    lemma {:induction false} TakenOk(p: nat)
      requires Ok() && Free(p)
      ensures Next(p) in head && Taken(p).Ok()
    {
      FreeHasUsedNeighbours(p);
      var l := Taken(p);
      forall q {:trigger l.Sound(q)} | q in starts
        ensures l.Sound(q)
      {
        TakenAt(p, q);
      }
      forall q, q' {:trigger l.Before(q, q')} | q in starts && q' in starts
        ensures l.Before(q, q')
      {
        Apart(q, q');
        About(q);
      }
      About(top);
    }

    // ----- splitting -----

    ghost predicate CanSplit(p: nat, n: nat) {
      Ok() && p in starts && p in head && MIN_CHUNK_SIZE <= n &&
      if p == top then n < head[p].size else n + MIN_CHUNK_SIZE <= head[p].size
    }

    lemma {:induction false} SplitChunk(p: nat, n: nat, q: nat)
      requires CanSplit(p, n) && !head[p].cinuse && q in Split(p, n).starts
      ensures Split(p, n).Chunk(q)
    {
      About(p);
      NotInside(p, p + n);
      if q != p + n { About(q); }
    }

    lemma {:induction false} SplitLinked(p: nat, n: nat, q: nat)
      requires CanSplit(p, n) && !head[p].cinuse && q in Split(p, n).starts
      ensures Split(p, n).Linked(q)
    {
      About(p);
      NotInside(p, p + n);
      if q != p + n { About(q); }
    }

    /** Splitting leaves the parts inside the chunk that was split. */
    lemma {:induction false} PartsApart(p: nat, n: nat, q: nat, q': nat)
      requires CanSplit(p, n) && q in starts + {p + n} && q' in starts + {p + n}
      ensures q < q' && q != p + n ==> q in head && q + (if q == p then n else head[q].size) <= q'
      ensures q < q' && q == p + n ==> p + head[p].size <= q'
    {
      About(p);
      var q0, q1 := if q == p + n then p else q, if q' == p + n then p else q';
      Apart(q0, q1);
    }

    lemma {:induction false} SplitOk(p: nat, n: nat)
      requires CanSplit(p, n) && !head[p].cinuse
      ensures Split(p, n).Ok()
    {
      var l := Split(p, n);
      forall q {:trigger l.Sound(q)} | q in l.starts
        ensures l.Sound(q)
      {
        SplitChunk(p, n, q);
        SplitLinked(p, n, q);
      }
      forall q, q' {:trigger l.Before(q, q')} | q in l.starts && q' in l.starts
        ensures l.Before(q, q')
      {
        NotInside(p, p + n);
        PartsApart(p, n, q, q');
      }
    }

    lemma {:induction false} SplitUsedAt(p: nat, n: nat, q: nat)
      requires CanSplit(p, n) && Used(p) && q in SplitUsed(p, n).starts
      ensures SplitUsed(p, n).Sound(q)
    {
      About(p);
      NotInside(p, p + n);
      if q != p + n { About(q); }
      hide Ok;
    }

    lemma {:induction false} SplitUsedOk(p: nat, n: nat)
      requires CanSplit(p, n) && Used(p)
      ensures SplitUsed(p, n).Ok()
    {
      var l := SplitUsed(p, n);
      NotInside(p, p + n);
      forall q {:trigger l.Sound(q)} | q in l.starts
        ensures l.Sound(q)
      {
        SplitUsedAt(p, n, q);
      }
      forall q, q' {:trigger l.Before(q, q')} | q in l.starts && q' in l.starts
        ensures l.Before(q, q')
      {
        NotInside(p, p + n);
        PartsApart(p, n, q, q');
      }
    }

    // ----- merging -----

    /** The neighbours of the stretch are in use, or it ends the arena. */
    ghost predicate CanMerge(a: nat, b: nat) {
      Ok() && a in starts && a < b && (a != base ==> a in prev && Used(prev[a])) &&
      (forall p :: p in starts && a <= p < b ==> p in head && p + head[p].size <= b) &&
      if b == end then a <= top else Used(b)
    }

    /** The top is merged exactly when the stretch ends the arena. */
    lemma {:induction false} MergedEnds(a: nat, b: nat)
      requires CanMerge(a, b)
      ensures base <= a < b <= end && (b != end ==> b < end && (top < a || top > b))
    {
      About(a);
      About(top);
      Apart(a, top);
      if b != end {
        About(b);
        Apart(top, b);
      }
    }

    lemma {:induction false} MergedChunk(a: nat, b: nat, q: nat)
      requires CanMerge(a, b) && q in Merged(a, b).starts
      ensures Merged(a, b).Chunk(q)
    {
      MergedEnds(a, b);
      About(q);
      if q != a {
        Apart(a, q);
        if b == end { Apart(q, top); About(top); }
      }
    }

    lemma {:induction false} MergedLinked(a: nat, b: nat, q: nat)
      requires CanMerge(a, b) && q in Merged(a, b).starts
      ensures Merged(a, b).Linked(q)
    {
      MergedEnds(a, b);
      About(q);
      if q !in {a, base, b} { KeepsPrev(a, b, q); }
    }

    /** The chunk before a chunk outside the merged stretch is outside of it, too. */
    lemma {:induction false} KeepsPrev(a: nat, b: nat, q: nat)
      requires CanMerge(a, b) && q in Merged(a, b).starts && q !in {a, base, b}
      ensures q in prev && prev[q] in starts
      ensures !(a <= prev[q] < b)
    {
      About(q);
      Apart(a, q);
    }

    lemma {:induction false} MergedOk(a: nat, b: nat)
      requires CanMerge(a, b)
      ensures Merged(a, b).Ok()
    {
      var l := Merged(a, b);
      About(a);
      About(top);
      Apart(a, top);
      if b != end { About(b); Apart(b, top); }
      forall q {:trigger l.Sound(q)} | q in l.starts
        ensures l.Sound(q)
      {
        MergedChunk(a, b, q);
        MergedLinked(a, b, q);
      }
      forall q, q' {:trigger l.Before(q, q')} | q in l.starts && q' in l.starts
        ensures l.Before(q, q')
      {
        MergedApart(a, b, q, q');
      }
    }

    lemma {:induction false} MergedApart(a: nat, b: nat, q: nat, q': nat)
      requires CanMerge(a, b) && q in Merged(a, b).starts && q' in Merged(a, b).starts
      ensures Merged(a, b).Before(q, q')
    {
      Apart(q, q');
      Apart(a, q');
    }

    // ----- the free chunks around a chunk in use -----

    /** Where the chunk merged from `p` and a free chunk before it starts; the size of
        that chunk is in its foot. */
    function Left(p: nat): nat
      requires p in head
    {
      if !head[p].pinuse && p in foot && foot[p] <= p then p - foot[p] else p
    }

    /** Where the chunk merged from `p` and a free chunk after it ends. */
    function Right(p: nat): nat
      requires p in head && Next(p) in head
    {
      if head[Next(p)].cinuse then Next(p) else Next(Next(p))
    }

    lemma {:induction false} Neighbours(p: nat)
      requires Ok() && Used(p)
      ensures p != top && Next(p) in head && Next(p) in starts && Left(p) in head && Left(p) in starts
      ensures head[Next(p)].pinuse
      ensures head[p].pinuse ==> Left(p) == p
      ensures !head[p].pinuse ==>
        p in foot && p == Left(p) + foot[p] && Free(Left(p)) && Size(Left(p)) == foot[p] && head[Left(p)].pinuse
      ensures Left(p) != base ==> Left(p) in prev && Used(prev[Left(p)])
      ensures head[Left(p)].pinuse
    {
      About(p);
      About(Next(p));
      if !head[p].pinuse {
        About(prev[p]);
        FreeHasUsedNeighbours(prev[p]);
      }
    }

    lemma {:induction false} RightEnds(p: nat)
      requires Ok() && Used(p) && Next(p) in head
      ensures var n, e := Next(p), Right(p);
        n in starts && p < n <= e && (e == end <==> n == top) && (e != end ==> Used(e)) &&
        if head[n].cinuse then e == n
        else e == n + head[n].size && (n != top ==> Free(n) && !head[e].pinuse)
    {
      About(p);
      var n := Next(p);
      About(n);
      if !head[n].cinuse && n != top { FreeHasUsedNeighbours(n); }
      if head[n].cinuse { assert n != top; }
    }

    lemma {:induction false} Stretch(p: nat)
      requires Ok() && Used(p) && Next(p) in head
      ensures CanMerge(Left(p), Right(p)) && Left(p) <= p < Right(p)
      ensures forall q :: q in starts && Left(p) <= q < Right(p) ==>
        q == p || (q == Left(p) && Free(q)) || (q == Next(p) && (Free(q) || q == top))
    {
      Neighbours(p);
      RightEnds(p);
      About(top);
      var a, n, e := Left(p), Next(p), Right(p);
      forall q | q in starts && a <= q < e
        ensures q == p || (q == a && Free(q)) || (q == n && (Free(q) || q == top))
      {
        if q != a && q < p { NotInside(a, q); }
        if p < q < n { NotInside(p, q); }
        if n < q { NotInside(n, q); }
      }
    }

    // ----- moving the top -----

    lemma {:induction false} TopMovedAt(p: nat, n: nat, q: nat)
      requires Ok() && Used(p) && Next(p) == top && top < p + n < end
      requires q in TopMoved(p, n).starts
      ensures TopMoved(p, n).Sound(q)
    {
      About(p);
      About(top);
      NotInside(top, p + n);
      if q != p + n { About(q); }
    }

    lemma {:induction false} TopMovedApart(p: nat, n: nat, q: nat, q': nat)
      requires Ok() && Used(p) && Next(p) == top && top < p + n < end
      requires q in TopMoved(p, n).starts && q' in TopMoved(p, n).starts
      ensures TopMoved(p, n).Before(q, q')
    {
      About(p);
      About(top);
      if q in starts { Apart(q, p); Apart(q, top); About(q); }
      if q' in starts { Apart(q', p); Apart(q', top); About(q'); }
      if q in starts && q' in starts { Apart(q, q'); }
    }

    lemma {:induction false} TopMovedOk(p: nat, n: nat)
      requires Ok() && Used(p) && Next(p) == top && top < p + n < end
      ensures TopMoved(p, n).Ok()
    {
      var l := TopMoved(p, n);
      forall q {:trigger l.Sound(q)} | q in l.starts
        ensures l.Sound(q)
      {
        TopMovedAt(p, n, q);
      }
      forall q, q' {:trigger l.Before(q, q')} | q in l.starts && q' in l.starts
        ensures l.Before(q, q')
      {
        TopMovedApart(p, n, q, q');
      }
      About(p);
    }

    // ----- which chunks are free afterwards -----

    lemma {:induction false} SplitFree(p: nat, n: nat, q: nat)
      requires CanSplit(p, n) && !head[p].cinuse && (p == top || (q != p && q != p + n))
      ensures (Split(p, n).Free(q) <==> Free(q)) && (Free(q) ==> Split(p, n).Size(q) == Size(q))
    {
      About(p);
      NotInside(p, p + n);
    }

    lemma {:induction false} SplitUses(p: nat, n: nat, q: nat)
      requires p in head && 0 < n < head[p].size && p + n !in starts && q != p
      ensures (Split(p, n).Used(q) <==> Used(q)) && (Used(q) ==> Split(p, n).Size(q) == Size(q))
    {
    }

    lemma {:induction false} SplitUsedFree(p: nat, n: nat, q: nat)
      requires CanSplit(p, n) && Used(p)
      ensures (SplitUsed(p, n).Free(q) <==> Free(q)) && (Free(q) ==> SplitUsed(p, n).Size(q) == Size(q))
    {
      About(p);
      NotInside(p, p + n);
    }

    lemma {:induction false} MergedOutside(a: nat, b: nat, q: nat)
      requires CanMerge(a, b) && !(a <= q < b)
      ensures (Merged(a, b).Free(q) <==> Free(q)) && (Free(q) ==> Merged(a, b).Size(q) == Size(q))
    {
      MergedEnds(a, b);
      About(top);
      if q in starts { About(q); }
    }

    lemma {:induction false} TopMovedFree(p: nat, n: nat, q: nat)
      requires Ok() && Used(p) && Next(p) == top && top < p + n < end
      ensures (TopMoved(p, n).Free(q) <==> Free(q)) && (Free(q) ==> TopMoved(p, n).Size(q) == Size(q))
    {
      About(p);
      About(top);
      NotInside(top, p + n);
    }
  }
}
