/** The tree bins of lj_alloc.c: bitwise tries of free chunks keyed by size, with a
    ring of chunks of equal size at each node, and the search for a best fit. Sizes
    and shifted sizes are 64-bit unsigned words, so their differences wrap around. */
module LjTree {
  import opened Numbers

  const W64: nat := 0x1_0000_0000_0000_0000
  const W63: nat := 0x8000_0000_0000_0000
  const NTREEBINS: nat := 32

  /** Every chunk of the arena is smaller than this. Larger sizes would lose bits in
      the 32-bit index computation. */
  const SIZE_LIMIT: nat := 0x100_0000_0000

  // ----- bit arithmetic -----

  lemma {:induction false} Pow2Adds(a: nat, b: nat)
    ensures Pow2(a + b) == Pow2(a) * Pow2(b)
  {
    if b > 0 { Pow2Adds(a, b - 1); }
  }

  lemma {:induction false} Pow2Values()
    ensures Pow2(7) == 128 && Pow2(8) == 256 && Pow2(16) == 0x1_0000
    ensures Pow2(22) == 0x40_0000 && Pow2(23) == 0x80_0000 && Pow2(64) == W64
  {
    assert Pow2(8) == 256;
    Pow2Adds(8, 8);
    Pow2Adds(16, 6);
    Pow2Adds(16, 7);
    Pow2Adds(16, 16);
    Pow2Adds(32, 32);
  }

  /** The index of the most significant bit. */
  function Fls(x: nat): (k: nat)
    requires x > 0
    ensures Pow2(k) <= x < 2 * Pow2(k)
  {
    if x == 1 then 0 else 1 + Fls(x / 2)
  }

  function Sub64(a: nat, b: nat): nat { (a - b) % W64 }

  /** The top bit of a word, and the word shifted left by one. */
  function TopBit(k: nat): nat { (k / W63) % 2 }

  function Shl1(k: nat): nat { (2 * k) % W64 }

  // ----- bins -----

  /** The tree bin for a size (compute_tree_index). */
  function TreeIndex(s: nat): (i: nat)
    ensures i < NTREEBINS
  {
    var x := (s / 256) % 0x1_0000_0000;
    if x == 0 then 0
    else if x > 0xFFFF then NTREEBINS - 1
    else
      var k := Fls(x);
      assert k < 16 by { if k >= 16 { Pow2Grows(16, k); Pow2Values(); } }
      2 * k + (s / Pow2(k + 7)) % 2
  }

  lemma {:induction false} Pow2Grows(a: nat, b: nat)
    requires a <= b
    ensures Pow2(a) <= Pow2(b)
  {
    if a < b { Pow2Grows(a, b - 1); }
  }

  /** The smallest size of bin `i` (minsize_for_tree_index); the end of the last bin
      is the one that a bin 32 would start at. */
  function MinSize(i: nat): nat {
    Pow2(i / 2 + 8) + if i % 2 == 1 then Pow2(i / 2 + 7) else 0
  }

  /** The trie of bin `i` splits the range of 2^BinBits(i) sizes from BinLo(i) on.
      The last bin splits the range of all words. */
  function BinLo(i: nat): nat { if i == NTREEBINS - 1 then 0 else MinSize(i) }

  function BinBits(i: nat): (b: nat)
    requires i < NTREEBINS
    ensures b <= 64
  {
    if i == NTREEBINS - 1 then 64 else i / 2 + 7
  }

  /** leftshift_for_tree_index: moves the bit that splits the range to the top. */
  function LeftShift(i: nat): nat
    requires i < NTREEBINS
  {
    if i == NTREEBINS - 1 then 0 else 63 - (i / 2 + 8 - 2)
  }

  function ShiftedSize(s: nat, i: nat): nat
    requires i < NTREEBINS
  {
    (s * Pow2(LeftShift(i))) % W64
  }

  lemma {:induction false} MinSizeStep(i: nat)
    ensures MinSize(i + 1) == MinSize(i) + Pow2(i / 2 + 7)
  {
    if i % 2 == 0 {
      assert (i + 1) / 2 == i / 2;
    } else {
      assert (i + 1) / 2 == i / 2 + 1;
    }
  }

  lemma {:induction false} MinSizeMonotone(i: nat, j: nat)
    requires i <= j
    ensures MinSize(i) <= MinSize(j)
  {
    if i < j {
      MinSizeMonotone(i, j - 1);
      MinSizeStep(j - 1);
    }
  }

  lemma {:induction false} TwoOrThree(s: nat, p: nat)
    requires 0 < p && 2 * p <= s < 4 * p
    ensures (s / p) % 2 == if s < 3 * p then 0 else 1
  {
    var q, r := s / p, s % p;
    assert s == p * q + r;
    if q <= 1 { MulGrows(p, q, 1); }
    if q >= 4 { MulGrows(p, 4, q); }
  }

  lemma {:induction false} MulGrows(p: nat, a: nat, b: nat)
    requires a <= b
    ensures p * a <= p * b
  {
  }

  lemma {:induction false} ShiftBy256(s: nat, p: nat)
    ensures s / 256 >= p ==> s >= 256 * p
    ensures s / 256 < 2 * p ==> s < 512 * p
  {
  }

  /** A size lies in the range of its bin. */
  lemma {:induction false} IndexBounds(s: nat)
    requires 256 <= s < SIZE_LIMIT
    ensures MinSize(TreeIndex(s)) <= s
    ensures TreeIndex(s) < NTREEBINS - 1 ==> s < MinSize(TreeIndex(s) + 1)
  {
    if s / 256 > 0xFFFF {
      Pow2Values();
      assert MinSize(31) == Pow2(23) + Pow2(22);
    } else {
      SmallIndexBounds(s);
    }
  }

  lemma {:induction false} SmallIndexBounds(s: nat)
    requires 256 <= s && s / 256 <= 0xFFFF
    ensures MinSize(TreeIndex(s)) <= s < MinSize(TreeIndex(s) + 1)
  {
    var k := Fls(s / 256);
    SmallWidth(s, k);
    SmallIndexIs(s, k);
    MinSizes(k);
    if s < 3 * Pow2(k + 7) {
      assert TreeIndex(s) == 2 * k;
    } else {
      assert TreeIndex(s) == 2 * k + 1;
    }
  }

  lemma {:induction false} SmallIndexIs(s: nat, k: nat)
    requires 256 <= s && s / 256 <= 0xFFFF && k == Fls(s / 256)
    requires 2 * Pow2(k + 7) <= s < 4 * Pow2(k + 7)
    ensures TreeIndex(s) == 2 * k + if s < 3 * Pow2(k + 7) then 0 else 1
  {
    assert (s / 256) % 0x1_0000_0000 == s / 256;
    TwoOrThree(s, Pow2(k + 7));
  }

  lemma {:induction false} MinSizes(k: nat)
    ensures MinSize(2 * k) == 2 * Pow2(k + 7)
    ensures MinSize(2 * k + 1) == 3 * Pow2(k + 7)
    ensures MinSize(2 * k + 2) == 4 * Pow2(k + 7)
  {
    assert (2 * k + 1) / 2 == k && (2 * k + 2) / 2 == k + 1;
    assert Pow2(k + 8) == 2 * Pow2(k + 7) && Pow2(k + 9) == 2 * Pow2(k + 8);
  }

  lemma {:induction false} SmallWidth(s: nat, k: nat)
    requires Pow2(k) <= s / 256 < 2 * Pow2(k)
    ensures Pow2(k + 8) == 2 * Pow2(k + 7) <= s < 4 * Pow2(k + 7)
  {
    assert Pow2(7) == 128;
    Pow2Adds(k, 7);
    ShiftBy256(s, Pow2(k));
  }

  /** Bins partition the sizes in order. */
  lemma {:induction false} IndexOrder(s: nat, t: nat)
    requires 256 <= s < SIZE_LIMIT && 256 <= t < SIZE_LIMIT
    ensures TreeIndex(s) < TreeIndex(t) ==> s < t
  {
    if TreeIndex(s) < TreeIndex(t) {
      IndexBounds(s);
      IndexBounds(t);
      MinSizeMonotone(TreeIndex(s) + 1, TreeIndex(t));
    }
  }

  /** The word `k` is the offset of `s` in a range of 2^b sizes from `lo`, scaled up
      to fill the word: its top bit tells the half of the range that holds `s`. */
  ghost predicate Aligned(k: nat, s: nat, lo: nat, b: nat) {
    b <= 64 && lo <= s < lo + Pow2(b) && k == (s - lo) * Pow2(64 - b)
  }

  lemma {:induction false} ScaledInWord(d: nat, w: nat, m: nat)
    requires d < w && w * m == W64
    ensures d * m < W64
  {
    assert (d + 1) * m <= w * m;
    assert (d + 1) * m == d * m + m;
    assert m > 0;
  }

  lemma {:induction false} WrapsTo(s: nat, c: nat, w: nat, m: nat)
    requires w * m == W64 && c * w <= s < c * w + w
    ensures (s * m) % W64 == (s - c * w) * m
  {
    var d := s - c * w;
    ScaledInWord(d, w, m);
    assert s * m == d * m + (c * w) * m;
    assert (c * w) * m == c * (w * m) == c * W64;
    assert (d * m + c * W64) % W64 == d * m;
  }

  lemma {:induction false} ShiftAlignsLast(s: nat)
    requires s < SIZE_LIMIT
    ensures Aligned(ShiftedSize(s, 31), s, BinLo(31), BinBits(31))
  {
    assert Pow2(64) == W64 by { Pow2Values(); }
    assert Pow2(0) == 1;
  }

  lemma {:induction false} ShiftAlignsIn(s: nat, i: nat)
    requires i < NTREEBINS - 1 && MinSize(i) <= s < MinSize(i + 1)
    ensures Aligned(ShiftedSize(s, i), s, BinLo(i), BinBits(i))
  {
    MinSizes(i / 2);
    AlignsAt(s, 2 + i % 2, i / 2);
    if i % 2 == 0 {
      assert i == 2 * (i / 2) && BinLo(i) == 2 * Pow2(i / 2 + 7);
    } else {
      assert i == 2 * (i / 2) + 1 && BinLo(i) == 3 * Pow2(i / 2 + 7);
    }
  }

  lemma {:induction false} AlignsAt(s: nat, c: nat, k: nat)
    requires k <= 57
    ensures c * Pow2(k + 7) <= s < c * Pow2(k + 7) + Pow2(k + 7) ==>
      Aligned((s * Pow2(57 - k)) % W64, s, c * Pow2(k + 7), k + 7)
  {
    WidthFillsWord(k);
    if c * Pow2(k + 7) <= s < c * Pow2(k + 7) + Pow2(k + 7) {
      WrapsTo(s, c, Pow2(k + 7), Pow2(57 - k));
    }
  }

  lemma {:induction false} WidthFillsWord(k: nat)
    requires k <= 57
    ensures Pow2(k + 7) * Pow2(57 - k) == W64
  {
    Pow2Adds(k + 7, 57 - k);
    Pow2Values();
  }

  /** One step down: the top bit says which half holds `s`, and shifting aligns the
      word with that half. */
  lemma {:induction false} StepAligned(k: nat, s: nat, lo: nat, b: nat)
    requires Aligned(k, s, lo, b) && b > 0
    ensures Pow2(b) == 2 * Pow2(b - 1)
    ensures TopBit(k) == if s < lo + Pow2(b - 1) then 0 else 1
    ensures Aligned(Shl1(k), s, if TopBit(k) == 0 then lo else lo + Pow2(b - 1), b - 1)
  {
    var d, h, m := s - lo, Pow2(b - 1), Pow2(64 - b);
    Pow2Values();
    Pow2Adds(b - 1, 64 - b);
    assert Pow2(64) == 2 * Pow2(63);
    HalfWord(d, h, m);
    assert Pow2(65 - b) == 2 * m;
  }

  lemma {:induction false} HalfWord(d: nat, h: nat, m: nat)
    requires h * m == W63 && d < 2 * h
    ensures TopBit(d * m) == if d < h then 0 else 1
    ensures Shl1(d * m) == (if d < h then d else d - h) * (2 * m)
  {
    assert m > 0;
    var e := if d < h then d else d - h;
    assert (e + 1) * m <= h * m;
    assert (e + 1) * m == e * m + m;
    assert e * (2 * m) == 2 * (e * m);
    if d >= h { assert d * m == e * m + h * m; }
  }

  /** The top bits of the shifted word `k` lead from the range of 2^b sizes at `lo`
      down to the size `s`, one half of a range at a time. */
  ghost predicate Steers(k: nat, s: nat, lo: nat, b: nat)
    decreases b
  {
    lo <= s < lo + Pow2(b) &&
    (b > 0 ==>
       var low := s < lo + Pow2(b - 1);
       TopBit(k) == (if low then 0 else 1) &&
       Steers(Shl1(k), s, if low then lo else lo + Pow2(b - 1), b - 1))
  }

  lemma {:induction false} AlignedSteers(k: nat, s: nat, lo: nat, b: nat)
    requires Aligned(k, s, lo, b)
    ensures Steers(k, s, lo, b)
    decreases b
  {
    if b > 0 {
      StepAligned(k, s, lo, b);
      AlignedSteers(Shl1(k), s, if TopBit(k) == 0 then lo else lo + Pow2(b - 1), b - 1);
    }
  }

  lemma {:induction false} SteersIn(s: nat, i: nat)
    requires i < NTREEBINS - 1 && MinSize(i) <= s < MinSize(i + 1)
    ensures Steers(ShiftedSize(s, i), s, BinLo(i), BinBits(i))
  {
    ShiftAlignsIn(s, i);
    AlignedSteers(ShiftedSize(s, i), s, BinLo(i), BinBits(i));
  }

  lemma {:induction false} SteersLast(s: nat)
    requires s < SIZE_LIMIT
    ensures Steers(ShiftedSize(s, 31), s, BinLo(31), BinBits(31))
  {
    ShiftAlignsLast(s);
    AlignedSteers(ShiftedSize(s, 31), s, BinLo(31), BinBits(31));
  }

  /** The shifted size steers to the size in the trie of its bin. */
  lemma {:induction false} ShiftedSteers(s: nat)
    requires 256 <= s < SIZE_LIMIT
    ensures var i := TreeIndex(s); Steers(ShiftedSize(s, i), s, BinLo(i), BinBits(i))
  {
    var i := TreeIndex(s);
    if i < NTREEBINS - 1 {
      IndexBounds(s);
      SteersIn(s, i);
    } else {
      SteersLast(s);
    }
  }

  // ----- tries -----

  /** A trie node holds the chunks of one size; `ring` lists their addresses from the
      chunk that is linked into the trie along the `fd` links. */
  datatype Tree = Nil | Node(size: nat, ring: seq<nat>, left: Tree, right: Tree)

  /** The chunk at `p` is stored under size `s`. */
  predicate Has(t: Tree, p: nat, s: nat) {
    t.Node? && ((s == t.size && p in t.ring) || Has(t.left, p, s) || Has(t.right, p, s))
  }

  predicate Distinct(ring: seq<nat>) {
    forall i, j :: 0 <= i < j < |ring| ==> ring[i] != ring[j]
  }

  /** Bitwise order: the subtrees of a node split the range of 2^b sizes from `lo`;
      the node's own size may lie anywhere in it. */
  ghost predicate Ordered(t: Tree, lo: nat, b: nat)
    decreases t
  {
    t.Node? ==>
      lo <= t.size < lo + Pow2(b) && t.ring != [] && Distinct(t.ring) &&
      if b == 0 then t.left.Nil? && t.right.Nil?
      else
        Ordered(t.left, lo, b - 1) && Ordered(t.right, lo + Pow2(b - 1), b - 1) &&
        forall p :: !Has(t.left, p, t.size) && !Has(t.right, p, t.size)
  }

  lemma {:induction false} HasInRange(t: Tree, lo: nat, b: nat, p: nat, s: nat)
    requires Ordered(t, lo, b) && Has(t, p, s)
    ensures lo <= s < lo + Pow2(b)
    decreases t
  {
    if b > 0 {
      if Has(t.left, p, s) { HasInRange(t.left, lo, b - 1, p, s); }
      if Has(t.right, p, s) { HasInRange(t.right, lo + Pow2(b - 1), b - 1, p, s); }
    }
  }

  // ----- insertion -----

  /** insert_large_chunk: walks down by the bits of the size to the node of that size,
      where the chunk joins the ring after the node's chunk, or to a free place. */
  function Insert(t: Tree, k: nat, s: nat, x: nat): Tree {
    match t
    case Nil => Node(s, [x], Nil, Nil)
    case Node(z, ring, l, r) =>
      if z != s then
        if TopBit(k) == 0 then Node(z, ring, Insert(l, Shl1(k), s, x), r)
        else Node(z, ring, l, Insert(r, Shl1(k), s, x))
      else if ring == [] then Node(z, [x], l, r)
      else Node(z, [ring[0], x] + ring[1..], l, r)
  }

  lemma {:induction false} InsertHas(t: Tree, k: nat, s: nat, x: nat, p: nat, z: nat)
    ensures Has(Insert(t, k, s, x), p, z) <==> Has(t, p, z) || (p == x && z == s)
  {
    match t
    case Nil =>
    case Node(y, ring, l, r) =>
      if y != s {
        if TopBit(k) == 0 { InsertHas(l, Shl1(k), s, x, p, z); }
        else { InsertHas(r, Shl1(k), s, x, p, z); }
      }
  }

  lemma {:induction false} InsertOrdered(t: Tree, k: nat, s: nat, x: nat, lo: nat, b: nat)
    requires Ordered(t, lo, b) && Steers(k, s, lo, b) && !Has(t, x, s)
    ensures Ordered(Insert(t, k, s, x), lo, b)
    decreases t
  {
    if t.Nil? {
    } else if t.size == s {
      InsertDistinct(t.ring, x);
    } else {
      OneSizeAtBottom(t, s, lo, b);
      if TopBit(k) == 0 {
        InsertOrdered(t.left, Shl1(k), s, x, lo, b - 1);
        InsertKeepsOthers(t.left, Shl1(k), s, x, t.size);
      } else {
        InsertOrdered(t.right, Shl1(k), s, x, lo + Pow2(b - 1), b - 1);
        InsertKeepsOthers(t.right, Shl1(k), s, x, t.size);
      }
    }
  }

  lemma {:induction false} OneSizeAtBottom(t: Tree, s: nat, lo: nat, b: nat)
    requires t.Node? && lo <= t.size < lo + Pow2(b) && lo <= s < lo + Pow2(b) && t.size != s
    ensures b > 0
  {
    assert Pow2(0) == 1;
  }

  lemma {:induction false} InsertKeepsOthers(t: Tree, k: nat, s: nat, x: nat, z: nat)
    requires z != s
    ensures forall p :: Has(Insert(t, k, s, x), p, z) <==> Has(t, p, z)
  {
    forall p
      ensures Has(Insert(t, k, s, x), p, z) <==> Has(t, p, z)
    {
      InsertHas(t, k, s, x, p, z);
    }
  }

  lemma {:induction false} DistinctCons(a: nat, r: seq<nat>)
    requires Distinct(r) && a !in r
    ensures Distinct([a] + r)
  {
  }

  lemma {:induction false} InsertDistinct(ring: seq<nat>, x: nat)
    requires Distinct(ring) && x !in ring && ring != []
    ensures Distinct([ring[0], x] + ring[1..])
  {
    var r := [ring[0], x] + ring[1..];
    forall i, j | 0 <= i < j < |r|
      ensures r[i] != r[j]
    {
      if i >= 2 { assert r[i] == ring[i - 1] && r[j] == ring[j - 1]; }
      else if j >= 2 { assert r[j] == ring[j - 1]; }
    }
  }

  /** Insertion adds exactly one chunk and keeps the order. */
  lemma {:induction false} InsertIs(t: Tree, k: nat, s: nat, x: nat, lo: nat, b: nat)
    requires Ordered(t, lo, b) && Steers(k, s, lo, b) && !Has(t, x, s)
    ensures Insert(t, k, s, x).Node? && Ordered(Insert(t, k, s, x), lo, b)
    ensures forall p: nat, z: nat {:trigger Has(Insert(t, k, s, x), p, z)} ::
      Has(Insert(t, k, s, x), p, z) <==> Has(t, p, z) || (p == x && z == s)
  {
    InsertOrdered(t, k, s, x, lo, b);
    forall p: nat, z: nat {:trigger Has(Insert(t, k, s, x), p, z)}
      ensures Has(Insert(t, k, s, x), p, z) <==> Has(t, p, z) || (p == x && z == s)
    {
      InsertHas(t, k, s, x, p, z);
    }
  }

  // ----- removal -----

  /** The ring without `x`. When `x` is the chunk linked into the trie, the last chunk
      of the ring takes its place. */
  function RingWithout(ring: seq<nat>, x: nat): seq<nat>
    requires x in ring
  {
    if ring[0] == x then
      if |ring| == 1 then [] else [ring[|ring| - 1]] + ring[1..|ring| - 1]
    else
      [ring[0]] + SeqWithout(ring[1..], x)
  }

  function SeqWithout(s: seq<nat>, x: nat): seq<nat> {
    if s == [] then []
    else if s[0] == x then s[1..]
    else [s[0]] + SeqWithout(s[1..], x)
  }

  lemma {:induction false} SeqWithoutIs(s: seq<nat>, x: nat)
    requires Distinct(s)
    ensures Distinct(SeqWithout(s, x))
    ensures forall p :: p in SeqWithout(s, x) <==> p in s && p != x
  {
    if s != [] {
      assert Distinct(s[1..]) && s[0] !in s[1..] && s == [s[0]] + s[1..];
      if s[0] != x {
        SeqWithoutIs(s[1..], x);
        DistinctCons(s[0], SeqWithout(s[1..], x));
      }
    }
  }

  lemma {:induction false} RingWithoutIs(ring: seq<nat>, x: nat)
    requires Distinct(ring) && x in ring
    ensures Distinct(RingWithout(ring, x)) && (|ring| > 1 ==> RingWithout(ring, x) != [])
    ensures forall p :: p in RingWithout(ring, x) <==> p in ring && p != x
  {
    var n := |ring| - 1;
    if ring[0] == x && n > 0 {
      var middle := ring[1..n];
      assert ring == [x] + middle + [ring[n]];
      assert Distinct(middle) && ring[n] !in middle;
      DistinctCons(ring[n], middle);
    } else if ring[0] != x {
      assert Distinct(ring[1..]) && ring[0] !in ring[1..] && ring == [ring[0]] + ring[1..];
      SeqWithoutIs(ring[1..], x);
      DistinctCons(ring[0], SeqWithout(ring[1..], x));
    } else {
      assert ring == [x];
    }
  }

  /** Takes the deepest node on the path that prefers right children. */
  function PopLeaf(t: Tree): (Tree, Tree)
    requires t.Node?
  {
    if t.right.Node? then
      var (leaf, r) := PopLeaf(t.right);
      (leaf, Node(t.size, t.ring, t.left, r))
    else if t.left.Node? then
      var (leaf, l) := PopLeaf(t.left);
      (leaf, Node(t.size, t.ring, l, t.right))
    else
      (t, Nil)
  }

  /** The trie without the root node: the leaf popped below it takes its place. */
  function DropRoot(t: Tree): Tree
    requires t.Node?
  {
    if t.right.Node? then
      var (leaf, r) := PopLeaf(t.right);
      if leaf.Node? then Node(leaf.size, leaf.ring, t.left, r) else Nil
    else if t.left.Node? then
      var (leaf, l) := PopLeaf(t.left);
      if leaf.Node? then Node(leaf.size, leaf.ring, l, Nil) else Nil
    else
      Nil
  }

  /** unlink_large_chunk: the chunk leaves its ring, or its node leaves the trie. The
      way to the node is the way of its size. */
  function Remove(t: Tree, k: nat, s: nat, x: nat): Tree {
    match t
    case Nil => Nil
    case Node(z, ring, l, r) =>
      if z != s then
        if TopBit(k) == 0 then Node(z, ring, Remove(l, Shl1(k), s, x), r)
        else Node(z, ring, l, Remove(r, Shl1(k), s, x))
      else if x !in ring then t
      else if |ring| > 1 then Node(z, RingWithout(ring, x), l, r)
      else DropRoot(t)
  }

  /** No size occurs on both sides of a node. */
  lemma {:induction false} SidesApart(t: Tree, lo: nat, b: nat)
    requires t.Node? && Ordered(t, lo, b) && b > 0
    ensures forall p: nat, s: nat :: Has(t.left, p, s) ==> lo <= s < lo + Pow2(b - 1)
    ensures forall p: nat, s: nat :: Has(t.right, p, s) ==> lo + Pow2(b - 1) <= s < lo + Pow2(b)
  {
    forall p: nat, s: nat | Has(t.left, p, s)
      ensures lo <= s < lo + Pow2(b - 1)
    {
      HasInRange(t.left, lo, b - 1, p, s);
    }
    forall p: nat, s: nat | Has(t.right, p, s)
      ensures lo + Pow2(b - 1) <= s < lo + Pow2(b)
    {
      HasInRange(t.right, lo + Pow2(b - 1), b - 1, p, s);
    }
  }

  /** The popped leaf is an ordered node's worth of chunks, and the rest of the trie
      stays ordered and keeps all other chunks. */
  lemma {:induction false} PopLeafIs(t: Tree, lo: nat, b: nat)
    requires t.Node? && Ordered(t, lo, b)
    ensures var (leaf, rest) := PopLeaf(t);
      leaf.Node? && lo <= leaf.size < lo + Pow2(b) && leaf.ring != [] && Distinct(leaf.ring) &&
      Ordered(rest, lo, b) && (forall p :: !Has(rest, p, leaf.size)) &&
      forall p: nat, s: nat :: Has(t, p, s) <==> Has(rest, p, s) || (s == leaf.size && p in leaf.ring)
    decreases t
  {
    if t.right.Node? {
      PopLeafIs(t.right, lo + Pow2(b - 1), b - 1);
      SidesApart(t, lo, b);
      var leaf := PopLeaf(t.right).0;
      assert Has(t.right, leaf.ring[0], leaf.size);
    } else if t.left.Node? {
      PopLeafIs(t.left, lo, b - 1);
      SidesApart(t, lo, b);
      var leaf := PopLeaf(t.left).0;
      assert Has(t.left, leaf.ring[0], leaf.size);
    }
  }

  lemma {:induction false} DropRootIs(t: Tree, lo: nat, b: nat)
    requires t.Node? && Ordered(t, lo, b)
    ensures Ordered(DropRoot(t), lo, b)
    ensures forall p: nat, s: nat :: Has(DropRoot(t), p, s) <==> Has(t.left, p, s) || Has(t.right, p, s)
  {
    if t.right.Node? {
      PopLeafIs(t.right, lo + Pow2(b - 1), b - 1);
      SidesApart(t, lo, b);
    } else if t.left.Node? {
      PopLeafIs(t.left, lo, b - 1);
      SidesApart(t, lo, b);
    }
  }

  /** Removal takes out exactly one chunk and keeps the order. */
  lemma {:induction false} RemoveIs(t: Tree, k: nat, s: nat, x: nat, lo: nat, b: nat)
    requires Ordered(t, lo, b) && Steers(k, s, lo, b) && Has(t, x, s)
    ensures Ordered(Remove(t, k, s, x), lo, b)
    ensures forall p: nat, z: nat :: Has(Remove(t, k, s, x), p, z) <==> Has(t, p, z) && !(p == x && z == s)
    decreases t
  {
    if t.size != s {
      HasSide(t, x, s, lo, b);
      if TopBit(k) == 0 {
        RemoveIs(t.left, Shl1(k), s, x, lo, b - 1);
      } else {
        RemoveIs(t.right, Shl1(k), s, x, lo + Pow2(b - 1), b - 1);
      }
      SidesApart(t, lo, b);
    } else {
      RemoveHere(t, s, x, lo, b);
    }
  }

  /** A chunk below a node is on the side of its size. */
  lemma {:induction false} HasSide(t: Tree, p: nat, s: nat, lo: nat, b: nat)
    requires Ordered(t, lo, b) && Has(t, p, s) && t.size != s
    ensures b > 0
    ensures if s < lo + Pow2(b - 1) then Has(t.left, p, s) else Has(t.right, p, s)
  {
    if Has(t.left, p, s) { HasInRange(t.left, lo, b - 1, p, s); }
    if Has(t.right, p, s) { HasInRange(t.right, lo + Pow2(b - 1), b - 1, p, s); }
  }

  lemma {:induction false} RemoveHere(t: Tree, s: nat, x: nat, lo: nat, b: nat)
    requires Ordered(t, lo, b) && t.Node? && t.size == s && x in t.ring
    ensures var r := if |t.ring| > 1 then Node(s, RingWithout(t.ring, x), t.left, t.right) else DropRoot(t);
      Ordered(r, lo, b) &&
      forall p: nat, z: nat :: Has(r, p, z) <==> Has(t, p, z) && !(p == x && z == s)
  {
    assert !Has(t.left, x, s) && !Has(t.right, x, s);
    if |t.ring| > 1 {
      RingWithoutIs(t.ring, x);
      var r := Node(s, RingWithout(t.ring, x), t.left, t.right);
      forall p: nat, z: nat
        ensures Has(r, p, z) <==> Has(t, p, z) && !(p == x && z == s)
      {
        assert p in r.ring <==> p in t.ring && p != x;
      }
    } else {
      assert t.ring == [x];
      DropRootIs(t, lo, b);
    }
  }

  // ----- best fit -----

  function LeftmostChild(t: Tree): Tree
    requires t.Node?
  {
    if t.left.Node? then t.left else t.right
  }

  /** A chunk found so far: its address, 0 for none, and what its size exceeds the
      request by, 2^64 - nb for none. */
  datatype Fit = Fit(v: nat, rsize: nat)

  ghost predicate FitOk(f: Fit, all: iset<(nat, nat)>, nb: nat) {
    (f.v == 0 ==> f.rsize == W64 - nb) && (f.v != 0 ==> (f.v, nb + f.rsize) in all && nb + f.rsize < SIZE_LIMIT)
  }

  /** The chunks stored in a trie, with their sizes. */
  ghost function Pairs(t: Tree): iset<(nat, nat)> {
    iset p: nat, s: nat | Has(t, p, s) :: (p, s)
  }

  /** No stored size >= nb is smaller than the one found. */
  ghost predicate Least(f: Fit, all: iset<(nat, nat)>, nb: nat) {
    forall p: nat, s: nat :: (p, s) in all && s >= nb ==> f.v != 0 && nb + f.rsize <= s
  }

  ghost predicate Sizes(all: iset<(nat, nat)>) {
    forall p: nat, s: nat :: (p, s) in all ==> p > 0 && s < SIZE_LIMIT
  }

  /** The node under the cursor against the best fit so far, in wrapping arithmetic:
      a size below nb wraps to at least 2^64 - nb and never wins. */
  function Better(f: Fit, t: Tree, nb: nat): Fit
    requires t.Node? && t.ring != []
  {
    var trem := Sub64(t.size, nb);
    if trem < f.rsize then Fit(t.ring[0], trem) else f
  }

  lemma {:induction false} BetterIs(f: Fit, t: Tree, all: iset<(nat, nat)>, nb: nat)
    requires t.Node? && t.ring != [] && 0 < nb < W64 && t.size < SIZE_LIMIT
    requires FitOk(f, all, nb) && (t.ring[0], t.size) in all && t.ring[0] > 0
    ensures FitOk(Better(f, t, nb), all, nb)
    ensures Better(f, t, nb).rsize <= f.rsize && (f.v != 0 ==> Better(f, t, nb).v != 0)
    ensures t.size >= nb ==> Better(f, t, nb).v != 0 && nb + Better(f, t, nb).rsize <= t.size
  {
    if t.size >= nb {
      assert Sub64(t.size, nb) == t.size - nb;
    } else {
      assert Sub64(t.size, nb) == W64 + t.size - nb;
    }
  }

  /** While following the leftmost path at `t`, whose range starts at `lo`: a size that
      is stored, fits and beats `f` is below the cursor, or above all that is there;
      and all sizes below the cursor fit, unless an exact fit is known already. */
  ghost predicate Walking(f: Fit, all: iset<(nat, nat)>, t: Tree, nb: nat, lo: nat, b: nat) {
    FitOk(f, all, nb) && Ordered(t, lo, b) &&
    (forall p: nat, s: nat :: Has(t, p, s) ==>
       (p, s) in all && (s >= nb || (f.v != 0 && f.rsize == 0))) &&
    forall p: nat, s: nat :: (p, s) in all && s >= nb ==>
      (f.v != 0 && nb + f.rsize <= s) || Has(t, p, s) || (t.Node? && s >= lo + Pow2(b))
  }

  function WalkLo(t: Tree, lo: nat, b: nat): nat
    requires t.Node?
  {
    if b > 0 && t.left.Nil? then lo + Pow2(b - 1) else lo
  }

  lemma {:induction false} WalkStep(f: Fit, all: iset<(nat, nat)>, t: Tree, nb: nat, lo: nat, b: nat)
    requires Walking(f, all, t, nb, lo, b) && t.Node? && 0 < nb < W64 && Sizes(all)
    ensures Walking(Better(f, t, nb), all, LeftmostChild(t), nb, WalkLo(t, lo, b), if b > 0 then b - 1 else 0)
  {
    assert Has(t, t.ring[0], t.size);
    BetterIs(f, t, all, nb);
    var f', t' := Better(f, t, nb), LeftmostChild(t);
    var lo', b' := WalkLo(t, lo, b), if b > 0 then b - 1 else 0;
    if b > 0 {
      SidesApart(t, lo, b);
      assert Pow2(b) == 2 * Pow2(b - 1);
    }
    forall p: nat, s: nat | Has(t', p, s)
      ensures (p, s) in all && (s >= nb || (f'.v != 0 && f'.rsize == 0))
    {
      assert Has(t, p, s);
    }
    assert f'.v != 0 && (t.size >= nb ==> nb + f'.rsize <= t.size) && (t.size < nb ==> f'.rsize == 0);
    forall p: nat, s: nat | (p, s) in all && s >= nb
      ensures (f'.v != 0 && nb + f'.rsize <= s) || Has(t', p, s) || (t'.Node? && s >= lo' + Pow2(b'))
    {
      if f.v != 0 && nb + f.rsize <= s {
        assert nb + f'.rsize <= s;
      } else if Has(t, p, s) {
        if Has(t.left, p, s) { assert t' == t.left; }
        if Has(t.right, p, s) && t.left.Node? { assert s >= lo' + Pow2(b'); }
      } else {
        assert s >= lo + Pow2(b) > t.size;
        assert s >= lo' + Pow2(b');
      }
    }
  }

  /** Every size in the trie is too small for a request of 2^40 bytes or more. */
  predicate Slight(t: Tree) {
    t.Node? ==> t.ring != [] && t.size < SIZE_LIMIT && Slight(t.left) && Slight(t.right)
  }

  lemma {:induction false} OrderedSmall(t: Tree, lo: nat, b: nat)
    requires Ordered(t, lo, b) && forall p: nat, s: nat :: Has(t, p, s) ==> s < SIZE_LIMIT
    ensures Slight(t)
    decreases t
  {
    if t.Node? {
      assert Has(t, t.ring[0], t.size);
      forall p: nat, s: nat | Has(t.left, p, s) || Has(t.right, p, s)
        ensures s < SIZE_LIMIT
      {
        assert Has(t, p, s);
      }
      if b > 0 {
        OrderedSmall(t.left, lo, b - 1);
        OrderedSmall(t.right, lo + Pow2(b - 1), b - 1);
      }
    }
  }

  /** A request that no size meets: nothing below the cursor can win. */
  predicate Idle(f: Fit, t: Tree, nb: nat) {
    SIZE_LIMIT <= nb < W64 && Slight(t) && f == Fit(0, W64 - nb)
  }

  /** Follows the leftmost path from `t0` to the smallest size. */
  method WalkLeftmost(ghost all: iset<(nat, nat)>, t0: Tree, f0: Fit, nb: nat, ghost lo0: nat, ghost b0: nat)
    returns (f: Fit)
    requires 0 < nb < W64 && Sizes(all)
    requires Idle(f0, t0, nb) || (nb < SIZE_LIMIT && Walking(f0, all, t0, nb, lo0, b0))
    ensures if nb < SIZE_LIMIT then FitOk(f, all, nb) && Least(f, all, nb) else f.v == 0
  {
    var t := t0;
    f := f0;
    ghost var lo: nat, b: nat := lo0, b0;
    while t.Node?
      invariant Idle(f, t, nb) || (nb < SIZE_LIMIT && Walking(f, all, t, nb, lo, b))
      decreases t
    {
      if nb < SIZE_LIMIT { WalkStep(f, all, t, nb, lo, b); }
      var trem := Sub64(t.size, nb);
      if trem < f.rsize {
        f := Fit(t.ring[0], trem);
      }
      lo, b := WalkLo(t, lo, b), if b > 0 then b - 1 else 0;
      t := LeftmostChild(t);
    }
  }

  /** A walk that has a chunk below the cursor or a fit already will find a fit. */
  lemma {:induction false} WalkMeets(f: Fit, all: iset<(nat, nat)>, t: Tree, nb: nat, lo: nat, b: nat)
    requires Walking(f, all, t, nb, lo, b)
    ensures t.Node? || f.v != 0 ==> exists p: nat, s: nat :: (p, s) in all && s >= nb
    ensures t.Nil? && f.v == 0 ==>
      f == Fit(0, W64 - nb) && forall p: nat, s: nat :: (p, s) in all ==> s < nb
  {
    if f.v != 0 {
      assert (f.v, nb + f.rsize) in all;
    } else if t.Node? {
      assert Has(t, t.ring[0], t.size);
    }
  }

  /** Where the descent is: the range at the cursor, and the deepest right subtree not
      taken with its range. */
  datatype Trail = Trail(lo: nat, b: nat, rst: Tree, rlo: nat, rb: nat)

  /** While following the bits of nb at `t`: besides below the cursor, a size that fits
      and beats `f` can be in the deferred subtree, or above its range. */
  ghost predicate Descending(f: Fit, all: iset<(nat, nat)>, t: Tree, nb: nat, k: nat, tr: Trail) {
    Ordered(t, tr.lo, tr.b) && Ordered(tr.rst, tr.rlo, tr.rb) && Steers(k, nb, tr.lo, tr.b) &&
    (tr.rst.Node? ==> tr.lo + Pow2(tr.b) <= tr.rlo) &&
    (forall p: nat, s: nat :: Has(t, p, s) || Has(tr.rst, p, s) ==> (p, s) in all) &&
    forall p: nat, s: nat :: (p, s) in all && s >= nb ==> Left(f, t, nb, tr, p, s)
  }

  predicate Left(f: Fit, t: Tree, nb: nat, tr: Trail, p: nat, s: nat) {
    (f.v != 0 && nb + f.rsize <= s) || Has(t, p, s) || Has(tr.rst, p, s) ||
    (tr.rst.Node? && s >= tr.rlo + Pow2(tr.rb))
  }

  function Deeper(tr: Trail, t: Tree, low: bool): Trail
    requires t.Node?
  {
    var b := if tr.b > 0 then tr.b - 1 else 0;
    var mid := tr.lo + Pow2(b);
    if low && t.right.Node? then Trail(tr.lo, b, t.right, mid, b)
    else Trail(if low then tr.lo else mid, b, tr.rst, tr.rlo, tr.rb)
  }

  /** A chunk below the cursor that fits and beats `f'` is below the next cursor or in
      the next deferred subtree, or it is above that. */
  lemma {:induction false} DescendKeeps(f': Fit, t: Tree, nb: nat, k: nat, tr: Trail, p: nat, s: nat)
    requires t.Node? && tr.b > 0 && Ordered(t, tr.lo, tr.b) && Steers(k, nb, tr.lo, tr.b)
    requires t.size >= nb ==> f'.v != 0 && nb + f'.rsize <= t.size
    requires s >= nb
    ensures var low := TopBit(k) == 0;
      Has(t, p, s) ==>
        (f'.v != 0 && nb + f'.rsize <= s) || Has(if low then t.left else t.right, p, s) ||
        (low && Has(t.right, p, s))
    ensures TopBit(k) == 0 && t.right.Node? && s >= tr.lo + Pow2(tr.b) ==>
      s >= tr.lo + Pow2(tr.b - 1) + Pow2(tr.b - 1)
  {
    if Has(t.left, p, s) { HasInRange(t.left, tr.lo, tr.b - 1, p, s); }
  }

  lemma {:induction false} DescendStep(f: Fit, f': Fit, all: iset<(nat, nat)>, t: Tree, nb: nat, k: nat, tr: Trail)
    requires Descending(f, all, t, nb, k, tr) && t.Node? && tr.b > 0
    requires f'.rsize <= f.rsize && (f.v != 0 ==> f'.v != 0)
    requires t.size >= nb ==> f'.v != 0 && nb + f'.rsize <= t.size
    ensures TopBit(k) <= 1
    ensures var low := TopBit(k) == 0;
      Descending(f', all, if low then t.left else t.right, nb, Shl1(k), Deeper(tr, t, low))
  {
    var low := TopBit(k) == 0;
    var t', tr' := if low then t.left else t.right, Deeper(tr, t, low);
    forall p: nat, s: nat | (p, s) in all && s >= nb
      ensures Left(f', t', nb, tr', p, s)
    {
      assert Left(f, t, nb, tr, p, s);
      DescendKeeps(f', t, nb, k, tr, p, s);
      if Has(tr.rst, p, s) { HasInRange(tr.rst, tr.rlo, tr.rb, p, s); }
    }
  }

  lemma {:induction false} DescendFinds(f: Fit, all: iset<(nat, nat)>, t: Tree, nb: nat, k: nat, tr: Trail)
    requires Descending(f, all, t, nb, k, tr) && FitOk(f, all, nb)
    requires t.Node? && 0 < nb < W64 && Sizes(all)
    ensures var f' := Better(f, t, nb);
      FitOk(f', all, nb) && f'.rsize <= f.rsize && (f.v != 0 ==> f'.v != 0) &&
      (t.size >= nb ==> f'.v != 0 && nb + f'.rsize <= t.size) &&
      (f'.rsize == 0 ==> f'.v != 0) && (f'.rsize != 0 ==> tr.b > 0)
  {
    assert Has(t, t.ring[0], t.size);
    BetterIs(f, t, all, nb);
    if tr.b == 0 {
      assert Pow2(0) == 1 && t.size == nb;
      assert Sub64(t.size, nb) == 0;
    }
  }

  /** One turn of the descent, seen from its start. */
  lemma {:induction false} DescendTurn(f: Fit, all: iset<(nat, nat)>, t: Tree, nb: nat, k: nat, tr: Trail)
    requires Descending(f, all, t, nb, k, tr) && FitOk(f, all, nb)
    requires t.Node? && 0 < nb < W64 && Sizes(all)
    ensures var f', low := Better(f, t, nb), TopBit(k) == 0;
      FitOk(f', all, nb) &&
      if f'.rsize == 0 then f'.v != 0
      else tr.b > 0 && Descending(f', all, if low then t.left else t.right, nb, Shl1(k), Deeper(tr, t, low))
  {
    DescendFinds(f, all, t, nb, k, tr);
    var f' := Better(f, t, nb);
    if f'.rsize != 0 { DescendStep(f, f', all, t, nb, k, tr); }
  }

  /** At the end of the descent, the deferred subtree holds the least sizes > nb. */
  lemma {:induction false} DescendEnds(f: Fit, all: iset<(nat, nat)>, nb: nat, k: nat, tr: Trail)
    requires Descending(f, all, Nil, nb, k, tr) && FitOk(f, all, nb)
    ensures Walking(f, all, tr.rst, nb, tr.rlo, tr.rb)
  {
    forall p: nat, s: nat | Has(tr.rst, p, s)
      ensures s >= nb
    {
      HasInRange(tr.rst, tr.rlo, tr.rb, p, s);
    }
    forall p: nat, s: nat | (p, s) in all && s >= nb
      ensures (f.v != 0 && nb + f.rsize <= s) || Has(tr.rst, p, s) || (tr.rst.Node? && s >= tr.rlo + Pow2(tr.rb))
    {
      assert Left(f, Nil, nb, tr, p, s);
    }
  }

  lemma {:induction false} DescendStarts(root: Tree, nb: nat, all: iset<(nat, nat)>, k: nat, lo: nat, b: nat)
    requires 0 < nb < W64 && all == Pairs(root) && Ordered(root, lo, b) && Steers(k, nb, lo, b)
    ensures Descending(Fit(0, Sub64(0, nb)), all, root, nb, k, Trail(lo, b, Nil, 0, 0))
    ensures FitOk(Fit(0, Sub64(0, nb)), all, nb)
  {
    var f, tr := Fit(0, Sub64(0, nb)), Trail(lo, b, Nil, 0, 0);
    forall p: nat, s: nat | (p, s) in all
      ensures Left(f, root, nb, tr, p, s)
    {
    }
  }

  /** The descent, for requests that some size may meet and for those that none does. */
  ghost predicate Searching(f: Fit, all: iset<(nat, nat)>, t: Tree, nb: nat, k: nat, tr: Trail) {
    if nb < SIZE_LIMIT then FitOk(f, all, nb) && Descending(f, all, t, nb, k, tr)
    else Idle(f, t, nb) && Slight(tr.rst)
  }

  /** An exact fit ends the search; the walk below its node changes nothing. */
  lemma {:induction false} ExactWalks(f: Fit, f': Fit, all: iset<(nat, nat)>, t: Tree, nb: nat, k: nat, tr: Trail)
    requires Descending(f, all, t, nb, k, tr)
    requires FitOk(f', all, nb) && f'.rsize == 0 && f'.v != 0
    ensures Walking(f', all, t, nb, tr.lo, tr.b)
  {
  }

  lemma {:induction false} SearchTurn(f: Fit, all: iset<(nat, nat)>, t: Tree, nb: nat, k: nat, tr: Trail)
    requires Searching(f, all, t, nb, k, tr) && t.Node? && 0 < nb < W64 && Sizes(all)
    ensures t.ring != []
    ensures var f', bit := Better(f, t, nb), TopBit(k);
      if f'.rsize == 0 then nb < SIZE_LIMIT && Walking(f', all, t, nb, tr.lo, tr.b)
      else Searching(f', all, if bit == 0 then t.left else t.right, nb, Shl1(k), Deeper(tr, t, bit == 0))
  {
    if nb < SIZE_LIMIT {
      DescendTurn(f, all, t, nb, k, tr);
      var f' := Better(f, t, nb);
      if f'.rsize == 0 { ExactWalks(f, f', all, t, nb, k, tr); }
    }
  }

  lemma {:induction false} SearchEnds(f: Fit, all: iset<(nat, nat)>, nb: nat, k: nat, tr: Trail)
    requires Searching(f, all, Nil, nb, k, tr)
    ensures Idle(f, tr.rst, nb) || (nb < SIZE_LIMIT && Walking(f, all, tr.rst, nb, tr.rlo, tr.rb))
  {
    if nb < SIZE_LIMIT { DescendEnds(f, all, nb, k, tr); }
  }

  lemma {:induction false} SearchStarts(root: Tree, nb: nat, all: iset<(nat, nat)>)
    requires 256 <= nb < W64 && all == Pairs(root) && Slight(root)
    requires nb < SIZE_LIMIT ==> Ordered(root, BinLo(TreeIndex(nb)), BinBits(TreeIndex(nb)))
    ensures var i := TreeIndex(nb);
      Searching(Fit(0, Sub64(0, nb)), all, root, nb, ShiftedSize(nb, i), Trail(BinLo(i), BinBits(i), Nil, 0, 0))
  {
    hide TreeIndex, BinLo, BinBits, ShiftedSize, Steers, Ordered, Descending, FitOk;
    if nb < SIZE_LIMIT {
      var i := TreeIndex(nb);
      ShiftedSteers(nb);
      DescendStarts(root, nb, all, ShiftedSize(nb, i), BinLo(i), BinBits(i));
    }
  }

  /** Searches the trie of the request's own bin along the bits of the request. The
      result is a fit and the subtree to search on: the least one with larger sizes.
      For requests beyond all sizes the index and the bits are arbitrary. */
  method SearchOwnBin(root: Tree, nb: nat, ghost all: iset<(nat, nat)>)
    returns (f: Fit, t: Tree, ghost lo: nat, ghost b: nat)
    requires 256 <= nb < W64 && Sizes(all) && all == Pairs(root) && Slight(root)
    requires nb < SIZE_LIMIT ==> Ordered(root, BinLo(TreeIndex(nb)), BinBits(TreeIndex(nb)))
    ensures Idle(f, t, nb) || (nb < SIZE_LIMIT && Walking(f, all, t, nb, lo, b))
  {
    var idx := TreeIndex(nb);
    f := Fit(0, Sub64(0, nb));
    t := root;
    var sizebits := ShiftedSize(nb, idx);
    var rst := Nil;  // the deepest untaken right subtree
    ghost var tr := Trail(BinLo(idx), BinBits(idx), Nil, 0, 0);
    SearchStarts(root, nb, all);
    while t.Node?
      invariant Searching(f, all, t, nb, sizebits, tr) && tr.rst == rst
      decreases t
    {
      SearchTurn(f, all, t, nb, sizebits, tr);
      var bit, trem := TopBit(sizebits), Sub64(t.size, nb);
      if trem < f.rsize {
        f := Fit(t.ring[0], trem);
      }
      if f.rsize == 0 { return f, t, tr.lo, tr.b; }
      tr := Deeper(tr, t, bit == 0);
      if t.right.Node? && bit == 0 {
        rst := t.right;
      }
      t := if bit == 0 then t.left else t.right;
      sizebits := Shl1(sizebits);
    }
    SearchEnds(f, all, nb, sizebits, tr);
    t, lo, b := rst, tr.rlo, tr.rb;
  }
}
