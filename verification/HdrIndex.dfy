/** The index arithmetic of hdr_histogram.c. The cells of a histogram are numbered without
    gaps; bucket `b` has twice as many values in each cell as bucket `b - 1`. */
module HdrIndex {
  import opened Numbers

  // ----- shifts and bits -----

  function Shl(x: int, k: nat): int
    decreases k
  {
    if k == 0 then x else 2 * Shl(x, k - 1)
  }

  function Shr(x: int, k: nat): int
    decreases k
  {
    if k == 0 then x else Shr(x / 2, k - 1)
  }

  /** The number of bits of a value: 64 - clzll(x). */
  function BitLength(x: nat): nat { if x == 0 then 0 else 1 + BitLength(x / 2) }

  /** x | y */
  function Or(x: nat, y: nat): nat
    decreases x + y
  {
    if x == 0 && y == 0 then 0
    else 2 * Or(x / 2, y / 2) + if x % 2 == 1 || y % 2 == 1 then 1 else 0
  }

  lemma {:induction false} OrLength(x: nat, y: nat)
    ensures BitLength(Or(x, y)) == Max(BitLength(x), BitLength(y))
    decreases x + y
  {
    if x != 0 || y != 0 {
      OrLength(x / 2, y / 2);
      OrZero(x / 2, y / 2);
    }
  }

  lemma {:induction false} OrZero(x: nat, y: nat)
    ensures Or(x, y) == 0 <==> x == 0 && y == 0
    decreases x + y
  {
    if x != 0 || y != 0 { OrZero(x / 2, y / 2); }
  }

  lemma {:induction false} ShlAdd(x: int, y: int, k: nat)
    ensures Shl(x + y, k) == Shl(x, k) + Shl(y, k)
    decreases k
  {
    if k > 0 { ShlAdd(x, y, k - 1); }
  }

  lemma {:induction false} ShlShl(x: int, j: nat, k: nat)
    ensures Shl(x, j + k) == Shl(Shl(x, j), k)
    decreases k
  {
    if k > 0 {
      ShlShl(x, j, k - 1);
      assert Shl(x, j + k) == 2 * Shl(x, j + (k - 1));
    }
  }

  lemma {:induction false} ShlMonotone(x: int, y: int, k: nat)
    requires x <= y
    ensures Shl(x, k) <= Shl(y, k) && (x < y ==> Shl(x, k) < Shl(y, k))
    decreases k
  {
    if k > 0 { ShlMonotone(x, y, k - 1); }
  }

  lemma {:induction false} ShlPositive(k: nat)
    ensures Shl(1, k) >= 1 && Shl(0, k) == 0
  {
    if k > 0 { ShlPositive(k - 1); }
  }

  lemma {:induction false} ShlMore(j: nat, k: nat)
    requires j <= k
    ensures Shl(1, j) <= Shl(1, k)
    decreases k - j
  {
    if j < k {
      ShlMore(j, k - 1);
      ShlPositive(k - 1);
    }
  }

  lemma {:induction false} ShrIs(x: int, k: nat)
    ensures Shl(Shr(x, k), k) <= x < Shl(Shr(x, k) + 1, k)
    decreases k
  {
    if k > 0 { ShrIs(x / 2, k - 1); }
  }

  lemma {:induction false} LengthIs(x: nat)
    ensures x < Shl(1, BitLength(x)) && (x > 0 ==> Shl(1, BitLength(x) - 1) <= x)
  {
    if x > 0 { LengthIs(x / 2); }
  }

  lemma {:induction false} LengthOf(x: nat, k: nat)
    requires x < Shl(1, k)
    ensures BitLength(x) <= k
    decreases k
  {
    LengthIs(x);
    if BitLength(x) > k { ShlMore(k, BitLength(x) - 1); }
  }

  // ----- shapes -----

  /** What hdr_init computes: `half` is sub_bucket_half_count_magnitude. */
  datatype Shape = Shape(unit: nat, half: nat, buckets: nat)
  {
    function HalfCount(): int { Shl(1, half) }

    function Count(): int { Shl(1, half + 1) }

    function Mask(): int { Shl(Shl(1, half + 1) - 1, unit) }

    function CountsLen(): int { Shl(buckets + 1, half) }

    /** get_bucket_index; the bits of a negative value have their top bit set. */
    function BucketIndex(value: int): int
      requires Int64(value)
    {
      MaskPositive(this);
      (if value < 0 then 64 else BitLength(Or(value, Mask()))) - unit - (half + 1)
    }

    /** get_sub_bucket_index */
    function SubBucketIndex(value: int, bucket: int): int
      requires bucket + unit >= 0
    {
      Shr(value, bucket + unit)
    }

    /** counts_index, without its assertions */
    function CountsIndex(bucket: int, sub: int): int
      requires bucket >= -1
    {
      Shl(bucket + 1, half) + (sub - HalfCount())
    }

    /** The assertions of counts_index. */
    predicate Asserts(bucket: int, sub: int) {
      bucket < buckets && sub < Count() && (bucket == 0 || sub >= HalfCount())
    }

    /** value_from_index */
    function ValueFromIndex(bucket: int, sub: int): int
      requires bucket + unit >= 0
    {
      Shl(sub, bucket + unit)
    }
  }

  const INT64_MIN: int := -0x8000_0000_0000_0000
  const INT64_MAX: int := 0x7fff_ffff_ffff_ffff

  predicate Int64(v: int) { INT64_MIN <= v <= INT64_MAX }

  /** The shapes for which the arithmetic of the source does not overflow. */
  predicate Fits(sh: Shape) {
    sh.buckets >= 1 && sh.unit + sh.buckets <= 31 && sh.unit + sh.half + 1 <= 31 && sh.half <= 17
  }

  lemma {:induction false} MaskPositive(sh: Shape)
    ensures sh.Mask() >= 0
  {
    ShlPositive(sh.half + 1);
    ShlPositive(sh.unit);
    ShlMonotone(0, Shl(1, sh.half + 1) - 1, sh.unit);
  }

  lemma {:induction false} MaskLength(sh: Shape)
    ensures sh.Mask() >= 0 && BitLength(sh.Mask()) == sh.unit + sh.half + 1
  {
    hide BitLength;
    MaskPositive(sh);
    var n, top := sh.half + 1 + sh.unit, Shl(1, sh.half + 1);
    ShlShl(1, sh.half + 1, sh.unit);
    ShlMonotone(top - 1, top, sh.unit);
    LengthOf(sh.Mask(), n);
    ShlShl(1, sh.half, sh.unit);
    ShlPositive(sh.half);
    ShlMonotone(Shl(1, sh.half), top - 1, sh.unit);
    LengthIs(sh.Mask());
    if BitLength(sh.Mask()) < n { ShlMore(BitLength(sh.Mask()), sh.half + sh.unit); }
  }

  // ----- cells -----

  /** A cell: sub-bucket `sub` of bucket `bucket`. */
  datatype Place = Place(bucket: nat, sub: nat)
  {
    predicate In(sh: Shape) { sub < sh.Count() && (bucket == 0 || sh.HalfCount() <= sub) }

    function Index(sh: Shape): int { sh.CountsIndex(bucket, sub) }

    function Low(sh: Shape): int { sh.ValueFromIndex(bucket, sub) }

    function Width(sh: Shape): int { Shl(1, sh.unit + bucket) }

    /** increment_bucket */
    function Next(sh: Shape): Place
      requires sh.HalfCount() >= 0
    {
      if sub + 1 >= sh.Count() then Place(bucket + 1, sh.HalfCount()) else Place(bucket, sub + 1)
    }
  }

  /** The cell with number `n`. */
  function PlaceAt(sh: Shape, n: nat): Place {
    ShlPositive(sh.half);
    if n == 0 then Place(0, 0) else PlaceAt(sh, n - 1).Next(sh)
  }

  lemma {:induction false} HalfIs(sh: Shape)
    ensures 1 <= sh.HalfCount() && sh.Count() == 2 * sh.HalfCount()
  {
    ShlPositive(sh.half);
  }

  lemma {:induction false} IndexIs(sh: Shape, b: nat, s: int)
    ensures sh.CountsIndex(b, s) == Shl(b, sh.half) + s &&
      sh.CountsIndex(b + 1, s) == sh.CountsIndex(b, s) + sh.HalfCount()
  {
    ShlAdd(b, 1, sh.half);
    ShlAdd(b + 1, 1, sh.half);
  }

  lemma {:induction false} NextIs(sh: Shape, p: Place)
    requires p.In(sh) && sh.HalfCount() >= 0
    ensures p.Next(sh).In(sh) && p.Next(sh).Index(sh) == p.Index(sh) + 1
    ensures p.Next(sh).Low(sh) == p.Low(sh) + p.Width(sh)
  {
    HalfIs(sh);
    IndexIs(sh, p.bucket, p.sub);
    ShlAdd(p.sub, 1, p.bucket + sh.unit);
    if p.sub + 1 >= sh.Count() {
      IndexIs(sh, p.bucket, sh.HalfCount());
      assert 2 * Shl(sh.HalfCount(), p.bucket + sh.unit) ==
        Shl(sh.HalfCount(), p.bucket + sh.unit) + Shl(sh.HalfCount(), p.bucket + sh.unit);
      ShlAdd(sh.HalfCount(), sh.HalfCount(), p.bucket + sh.unit);
      assert Shl(sh.HalfCount(), p.bucket + 1 + sh.unit) == 2 * Shl(sh.HalfCount(), p.bucket + sh.unit);
    }
  }

  /** Cells and their numbers correspond. */
  lemma {:induction false} PlaceAtIs(sh: Shape, n: nat)
    ensures PlaceAt(sh, n).In(sh) && PlaceAt(sh, n).Index(sh) == n
  {
    HalfIs(sh);
    if n == 0 {
      IndexIs(sh, 0, 0);
      ShlZero(sh.half);
    } else {
      PlaceAtIs(sh, n - 1);
      NextIs(sh, PlaceAt(sh, n - 1));
    }
  }

  lemma {:induction false} ShlZero(k: nat)
    ensures Shl(0, k) == 0
  {
    ShlPositive(k);
  }

  lemma {:induction false} IndexOf(sh: Shape, p: Place)
    requires p.In(sh)
    ensures p.Index(sh) >= 0 && PlaceAt(sh, p.Index(sh)) == p
    decreases p.bucket, p.sub
  {
    HalfIs(sh);
    IndexIs(sh, p.bucket, p.sub);
    ShlZero(sh.half);
    ShlMonotone(0, p.bucket, sh.half);
    if p != Place(0, 0) {
      var q := if p.bucket > 0 && p.sub == sh.HalfCount() then Place(p.bucket - 1, sh.Count() - 1)
        else Place(p.bucket, p.sub - 1);
      assert q.In(sh) && q.Next(sh) == p;
      NextIs(sh, q);
      IndexOf(sh, q);
    }
  }

  /** The lowest value of cell `n`. */
  function Low(sh: Shape, n: nat): int { PlaceAt(sh, n).Low(sh) }

  function Width(sh: Shape, n: nat): int { PlaceAt(sh, n).Width(sh) }

  lemma {:induction false} LowNext(sh: Shape, n: nat)
    ensures Low(sh, n + 1) == Low(sh, n) + Width(sh, n) && Width(sh, n) >= 1
  {
    HalfIs(sh);
    PlaceAtIs(sh, n);
    NextIs(sh, PlaceAt(sh, n));
    ShlPositive(sh.unit + PlaceAt(sh, n).bucket);
  }

  lemma {:induction false} LowMonotone(sh: Shape, i: nat, j: nat)
    requires i <= j
    ensures 0 <= Low(sh, i) <= Low(sh, j) && (i < j ==> Low(sh, i) < Low(sh, j))
    decreases j
  {
    if i < j {
      LowMonotone(sh, i, j - 1);
      LowNext(sh, j - 1);
    } else if i == 0 {
      ShlZero(sh.unit);
    } else {
      LowMonotone(sh, i - 1, j - 1);
      LowNext(sh, j - 1);
    }
  }

  // ----- the cell of a value -----

  /** counts_index_for */
  function CellOf(sh: Shape, value: int): int
    requires Int64(value) && Fits(sh)
  {
    BucketIs(sh, value);
    var b := sh.BucketIndex(value);
    sh.CountsIndex(b, sh.SubBucketIndex(value, b))
  }

  lemma {:induction false} BucketIs(sh: Shape, value: int)
    requires Int64(value)
    ensures value >= 0 ==>
      sh.BucketIndex(value) == Max(BitLength(value), sh.unit + sh.half + 1) - sh.unit - (sh.half + 1)
    ensures Fits(sh) || value >= 0 ==> sh.BucketIndex(value) >= 0
  {
    MaskLength(sh);
    if value >= 0 { OrLength(value, sh.Mask()); }
  }

  lemma {:induction false} PlaceOf(sh: Shape, value: nat) returns (p: Place)
    requires Int64(value)
    ensures p.bucket == sh.BucketIndex(value) && p.sub == sh.SubBucketIndex(value, p.bucket) && p.In(sh)
    ensures p.Low(sh) <= value < p.Low(sh) + p.Width(sh)
  {
    hide Shl, Shr, Or;
    BucketIs(sh, value);
    var b: nat := sh.BucketIndex(value);
    var s, k := sh.SubBucketIndex(value, b), b + sh.unit;
    ShrIs(value, k);
    ShlAdd(s, 1, k);
    LengthIs(value);
    ShlZero(k);
    if s < 0 { ShlMonotone(s + 1, 0, k); }
    if s >= sh.Count() {
      ShlMonotone(sh.Count(), s, k);
      ShlShl(1, sh.half + 1, k);
      ShlMore(BitLength(value), sh.half + 1 + k);
    }
    if b > 0 && s < sh.HalfCount() {
      ShlMonotone(s + 1, sh.HalfCount(), k);
      ShlShl(1, sh.half, k);
    }
    p := Place(b, s);
  }

  /** The cell of a value is the one with the value between its lowest value and that of
      the next cell. */
  lemma {:induction false} CellIs(sh: Shape, value: nat)
    requires Int64(value) && Fits(sh)
    ensures CellOf(sh, value) >= 0
    ensures Low(sh, CellOf(sh, value)) <= value < Low(sh, CellOf(sh, value) + 1)
  {
    BucketIs(sh, value);
    var p := PlaceOf(sh, value);
    IndexOf(sh, p);
    LowNext(sh, p.Index(sh));
  }

  /** Only one cell is. */
  lemma {:induction false} CellUnique(sh: Shape, value: nat, n: nat)
    requires Int64(value) && Fits(sh) && Low(sh, n) <= value < Low(sh, n + 1)
    ensures CellOf(sh, value) == n
  {
    hide Low, CellOf;
    CellIs(sh, value);
    var c: nat := CellOf(sh, value);
    if c < n { LowMonotone(sh, c + 1, n); }
    if n < c { LowMonotone(sh, n + 1, c); }
  }

  /** Larger values have the same cell, or a later one. */
  lemma {:induction false} CellMonotone(sh: Shape, v: nat, w: nat)
    requires Int64(w) && v <= w && Fits(sh)
    ensures 0 <= CellOf(sh, v) <= CellOf(sh, w)
  {
    CellIs(sh, v);
    CellIs(sh, w);
    if CellOf(sh, w) < CellOf(sh, v) { LowMonotone(sh, CellOf(sh, w) + 1, CellOf(sh, v)); }
  }

  /** Every cell is one of some value: of its lowest. */
  lemma {:induction false} CellOfLow(sh: Shape, n: nat)
    requires Fits(sh) && Low(sh, n) <= INT64_MAX
    ensures Low(sh, n) >= 0 && CellOf(sh, Low(sh, n)) == n
  {
    LowMonotone(sh, 0, n);
    LowNext(sh, n);
    CellUnique(sh, Low(sh, n), n);
  }

  // ----- the range of a histogram -----

  /** The first value that has no cell. */
  function Limit(sh: Shape): int { Shl(1, sh.unit + sh.half + sh.buckets) }

  lemma {:induction false} LimitIs(sh: Shape)
    requires Fits(sh)
    ensures sh.CountsLen() >= 1 && Low(sh, sh.CountsLen()) == Limit(sh) && 1 <= Limit(sh) <= INT64_MAX
  {
    hide Shl, PlaceAt;
    HalfIs(sh);
    IndexIs(sh, sh.buckets, sh.HalfCount());
    var p := Place(sh.buckets, sh.HalfCount());
    IndexOf(sh, p);
    ShlAdd(sh.buckets, 1, sh.half);
    ShlMonotone(1, sh.buckets + 1, sh.half);
    ShlShl(1, sh.half, sh.buckets + sh.unit);
    ShlPositive(sh.unit + sh.half + sh.buckets);
    ShlMore(sh.unit + sh.half + sh.buckets, 48);
    assert Shl(1, 48) == 0x1_0000_0000_0000 by { Shl48(); }
  }

  lemma {:induction false} Shl48()
    ensures Shl(1, 48) == 0x1_0000_0000_0000 && Shl(1, 16) == 0x1_0000
  {
    assert Shl(1, 8) == 256;
    ShlShl(1, 8, 8);
    assert Shl(256, 8) == 65536;
    ShlShl(1, 16, 8);
    assert Shl(65536, 8) == 0x100_0000;
    ShlShl(1, 24, 8);
    assert Shl(0x100_0000, 8) == 0x1_0000_0000;
    ShlShl(1, 32, 8);
    assert Shl(0x1_0000_0000, 8) == 0x100_0000_0000;
    ShlShl(1, 40, 8);
    assert Shl(0x100_0000_0000, 8) == 0x1_0000_0000_0000;
  }

  /** The test of hdr_record_value. */
  predicate Accepted(sh: Shape, value: int)
    requires Int64(value) && Fits(sh)
  {
    0 <= CellOf(sh, value) < sh.CountsLen()
  }

  /** Exactly the values below the limit are accepted; this includes some above the
      highest trackable value. The assertions of counts_index fail on all others, so that
      where they are compiled in, the refusal that is documented never happens. */
  lemma {:induction false} AcceptedIs(sh: Shape, value: int)
    requires Int64(value) && Fits(sh)
    ensures Accepted(sh, value) <==> 0 <= value < Limit(sh)
    ensures var b := sh.BucketIndex(value);
      b >= 0 && (sh.Asserts(b, sh.SubBucketIndex(value, b)) <==> 0 <= value < Limit(sh))
  {
    hide Shl, BitLength, Or, Low;
    LimitIs(sh);
    BucketIs(sh, value);
    if value >= 0 {
      CellIs(sh, value);
      var p := PlaceOf(sh, value);
      if CellOf(sh, value) < sh.CountsLen() {
        LowMonotone(sh, CellOf(sh, value) + 1, sh.CountsLen());
      } else {
        LowMonotone(sh, sh.CountsLen(), CellOf(sh, value));
      }
      BucketInRange(sh, p);
    } else {
      NegativeCell(sh, value);
    }
  }

  lemma {:induction false} BucketInRange(sh: Shape, p: Place)
    requires p.In(sh) && sh.buckets >= 1
    ensures p.Index(sh) < sh.CountsLen() <==> p.bucket < sh.buckets
  {
    HalfIs(sh);
    IndexIs(sh, p.bucket, p.sub);
    ShlAdd(p.bucket, 1, sh.half);
    if p.bucket < sh.buckets {
      ShlMonotone(p.bucket + 1, sh.buckets, sh.half);
      ShlAdd(sh.buckets, 1, sh.half);
    } else {
      ShlMonotone(sh.buckets, p.bucket, sh.half);
      ShlAdd(sh.buckets, 1, sh.half);
    }
  }

  lemma {:induction false} NegativeCell(sh: Shape, value: int)
    requires INT64_MIN <= value < 0 && Fits(sh)
    ensures CellOf(sh, value) >= sh.CountsLen() && sh.BucketIndex(value) >= sh.buckets
  {
    hide Shl, Shr, BitLength, Or;
    BucketIs(sh, value);
    var b := 63 - sh.unit - sh.half;
    var k := b + sh.unit;
    var s := Shr(value, k);
    HalfIs(sh);
    ShrIs(value, k);
    Shl63();
    ShlShl(1, sh.half, k);
    ShlAdd(-sh.HalfCount(), sh.HalfCount(), k);
    ShlZero(k);
    if s < -sh.HalfCount() { ShlMonotone(s + 1, -sh.HalfCount(), k); }
    ShlAdd(b - 1, 2, sh.half);
    ShlAdd(1, 1, sh.half);
    ShlMonotone(sh.buckets + 1, b - 1, sh.half);
  }

  lemma {:induction false} Shl63()
    ensures Shl(1, 63) == 0x8000_0000_0000_0000
  {
    Shl48();
    ShlShl(1, 48, 15);
    assert Shl(0x1_0000_0000_0000, 7) == 0x80_0000_0000_0000;
    ShlShl(0x1_0000_0000_0000, 7, 8);
    assert Shl(0x80_0000_0000_0000, 8) == 0x8000_0000_0000_0000;
  }

  // ----- equivalent values -----

  /** size_of_equivalent_value_range; the shift is of an int. */
  function SizeOfRange(sh: Shape, value: int): int
    requires Fits(sh) && Int64(value) && 0 <= value < Limit(sh)
  {
    BucketIs(sh, value);
    var b := sh.BucketIndex(value);
    var adjusted := if sh.SubBucketIndex(value, b) >= sh.Count() then b + 1 else b;
    IntShl(sh.unit + adjusted)
  }

  /** 1 << k, for 32 bits. */
  function IntShl(k: nat): int { if k <= 30 then Shl(1, k) else if k == 31 then -0x8000_0000 else 0 }

  /** lowest_equivalent_value */
  function LowestEquivalent(sh: Shape, value: int): int
    requires Fits(sh) && Int64(value)
  {
    BucketIs(sh, value);
    var b := sh.BucketIndex(value);
    sh.ValueFromIndex(b, sh.SubBucketIndex(value, b))
  }

  /** highest_equivalent_value */
  function HighestEquivalent(sh: Shape, value: int): int
    requires Fits(sh) && Int64(value) && 0 <= value < Limit(sh)
  {
    LowestEquivalent(sh, value) + SizeOfRange(sh, value) - 1
  }

  /** The values that are equivalent to a value are those of its cell: from the lowest to
      the highest. The adjustment of the bucket is never needed. */
  lemma {:induction false} EquivalentsAre(sh: Shape, value: nat)
    requires Fits(sh) && Int64(value)
    ensures CellOf(sh, value) >= 0 && LowestEquivalent(sh, value) == Low(sh, CellOf(sh, value))
    ensures value < Limit(sh) ==>
      HighestEquivalent(sh, value) == Low(sh, CellOf(sh, value) + 1) - 1 &&
      SizeOfRange(sh, value) == Width(sh, CellOf(sh, value))
  {
    CellIs(sh, value);
    var p := PlaceOf(sh, value);
    IndexOf(sh, p);
    LowNext(sh, p.Index(sh));
    if value < Limit(sh) { AcceptedIs(sh, value); }
  }

  /** Precision: outside of the first bucket a cell is narrow against its values. */
  lemma {:induction false} Precise(sh: Shape, n: nat, scale: nat)
    requires scale <= sh.HalfCount() && PlaceAt(sh, n).bucket > 0
    ensures Width(sh, n) * scale <= Low(sh, n)
  {
    PlaceAtIs(sh, n);
    var p := PlaceAt(sh, n);
    ShlProduct(p.sub, sh.unit + p.bucket);
    ShlPositive(sh.unit + p.bucket);
    assert p.Width(sh) * scale <= p.Width(sh) * p.sub;
  }

  lemma {:induction false} ShlProduct(x: int, k: nat)
    ensures Shl(x, k) == Shl(1, k) * x
    decreases k
  {
    if k > 0 { ShlProduct(x, k - 1); }
  }

  // ----- hdr_init -----

  function Power10(n: nat): (r: nat)
    ensures r >= 1
  {
    if n == 0 then 1 else 10 * Power10(n - 1)
  }

  /** ceil(log2(n)): the least k with n <= 2^k. */
  function CeilLog2(n: nat): nat
    requires n >= 1
  {
    BitLength(n - 1)
  }

  lemma {:induction false} CeilLog2Is(n: nat)
    requires n >= 2
    ensures n <= Shl(1, CeilLog2(n)) && CeilLog2(n) >= 1 && Shl(1, CeilLog2(n) - 1) < n
  {
    LengthIs(n - 1);
  }

  /** floor(log2(n)): the largest k with 2^k <= n. */
  function FloorLog2(n: nat): nat
    requires n >= 1
  {
    BitLength(n) - 1
  }

  lemma {:induction false} FloorLog2Is(n: nat)
    requires n >= 1
    ensures Shl(1, FloorLog2(n)) <= n < Shl(1, FloorLog2(n) + 1)
  {
    LengthIs(n);
  }

  lemma {:induction false} FiguresFit(figures: nat)
    requires 1 <= figures <= 5
    ensures var m := CeilLog2(2 * Power10(figures));
      2 <= m <= 18 && 2 * Power10(figures) <= Shl(1, m)
  {
    var n := 2 * Power10(figures);
    assert Power10(1) == 10 && Power10(2) == 100 && Power10(3) == 1000 && Power10(4) == 10000 && Power10(5) == 100000;
    CeilLog2Is(n);
    Shl48();
    assert Shl(1, 18) == 4 * Shl(1, 16);
    LengthOf(n - 1, 18);
  }
}
