/** hdr_histogram.c: a histogram behaves as the sorted list of the values recorded in it,
    read up to the width of a cell. */
module HdrHistogram {
  import opened Numbers
  import opened HdrIndex
  import opened HdrLists

  const OK := 0
  const EINVAL := 22

  /** The shape that hdr_init computes but for the number of buckets. */
  function Start(lowest: nat, figures: nat): Shape
    requires lowest >= 1
  {
    FiguresAtLeast(figures);
    Shape(FloorLog2(lowest), CeilLog2(2 * Power10(figures)) - 1, 1)
  }

  lemma {:induction false} FiguresAtLeast(figures: nat)
    ensures CeilLog2(2 * Power10(figures)) >= 1
  {
    CeilLog2Is(2 * Power10(figures));
  }

  /** The mask, moved up by one bit for each further bucket. */
  lemma {:induction false} MoreBuckets(sh: Shape, j: nat, k: nat)
    requires j <= k
    ensures 0 <= Shl(sh.Mask(), j) <= Shl(sh.Mask(), k)
    decreases k
  {
    MaskPositive(sh);
    ShlZero(j);
    ShlMonotone(0, sh.Mask(), j);
    if j < k {
      MoreBuckets(sh, j, k - 1);
      ShlZero(k - 1);
      ShlMonotone(0, sh.Mask(), k - 1);
    }
  }

  lemma {:induction false} ShlOnce(x: int)
    ensures Shl(x, 0) == x
  {
  }

  lemma {:induction false} ShlDoubles(x: int, k: nat)
    requires k >= 1
    ensures Shl(x, k) == 2 * Shl(x, k - 1)
  {
  }

  lemma {:induction false} FewBuckets(sh: Shape, j: nat, k: nat)
    requires Shl(sh.Mask(), j) < Shl(sh.Mask(), k)
    ensures j < k
  {
    if j >= k { MoreBuckets(sh, k, j); }
  }

  /** The highest value that the loop of hdr_init makes room for is below the limit. */
  lemma {:induction false} Covers(sh: Shape, highest: int)
    requires sh.buckets >= 1 && highest <= Shl(sh.Mask(), sh.buckets - 1)
    ensures highest < Limit(sh)
  {
    var top, k := Shl(1, sh.half + 1), sh.unit + (sh.buckets - 1);
    ShlShl(top - 1, sh.unit, sh.buckets - 1);
    ShlMonotone(top - 1, top, k);
    ShlShl(1, sh.half + 1, k);
  }

  /** The shape for values up to `highest`: with the least number of buckets that make
      room for them. */
  predicate Sized(sh: Shape, lowest: nat, highest: int, figures: nat)
    requires lowest >= 1
  {
    sh == Start(lowest, figures).(buckets := sh.buckets) && sh.buckets >= 1 &&
    highest <= Shl(sh.Mask(), sh.buckets - 1) && (sh.buckets > 1 ==> Shl(sh.Mask(), sh.buckets - 2) < highest)
  }

  /** There is one such shape, so that a caller can tell the limit of its values. */
  lemma {:induction false} SizedOnce(sh: Shape, sh': Shape, lowest: nat, highest: int, figures: nat)
    requires lowest >= 1 && Sized(sh, lowest, highest, figures) && Sized(sh', lowest, highest, figures)
    ensures sh == sh'
  {
    if sh.buckets < sh'.buckets { FewBuckets(sh, sh'.buckets - 2, sh.buckets - 1); }
    if sh'.buckets < sh.buckets { FewBuckets(sh, sh.buckets - 2, sh'.buckets - 1); }
  }

  lemma {:induction false} CountsLenIs(sh: Shape)
    ensures sh.CountsLen() == (sh.buckets + 1) * (sh.Count() / 2) >= 0
  {
    HalfIs(sh);
    ShlProduct(sh.buckets + 1, sh.half);
  }

  lemma {:induction false} NothingRecorded(sh: Shape, counts: seq<int>)
    requires Fits(sh) && |counts| == sh.CountsLen() && forall i :: 0 <= i < |counts| ==> counts[i] == 0
    ensures Counts(sh, [], counts)
  {
  }

  /** One more value, or many, in cell `c`. */
  lemma {:induction false} CountsMany(sh: Shape, s: seq<int>, counts: seq<int>, v: int, n: nat)
    requires Counts(sh, s, counts) && Sorted(s) && InRange(sh, v)
    ensures 0 <= CellOf(sh, v) < |counts|
    ensures Sorted(InsertMany(s, v, n)) && |InsertMany(s, v, n)| == |s| + n
    ensures Counts(sh, InsertMany(s, v, n), counts[CellOf(sh, v) := counts[CellOf(sh, v)] + n])
  {
    hide CellOf;
    CellInRange(sh, v);
    var c := CellOf(sh, v);
    if n == 0 {
      assert counts[c := counts[c]] == counts;
    } else {
      CountsMany(sh, s, counts, v, n - 1);
      var t, now := InsertMany(s, v, n - 1), counts[c := counts[c] + n];
      InsertSorted(t, v);
      InsertTracked(sh, t, v);
      forall i: nat | i < |now| ensures now[i] == CountAt(sh, Insert(t, v), i) { InsertCount(sh, t, v, i); }
    }
  }

  class Histogram {
    const shape: Shape
    const highest: int
    const counts: array<int>
    var totalCount: int
    ghost var recorded: seq<int>

    ghost predicate Valid()
      reads this, counts
    {
      Counts(shape, recorded, counts[..]) && Sorted(recorded) && totalCount == |recorded|
    }

    /** What hdr_init sets up, with zeroed counts. */
    constructor (sh: Shape, highestTrackable: int)
      requires Fits(sh)
      ensures Valid() && fresh(counts) && shape == sh && highest == highestTrackable && recorded == []
    {
      CountsLenIs(sh);
      shape, highest, totalCount, recorded := sh, highestTrackable, 0, [];
      var n := (sh.buckets + 1) * (sh.Count() / 2);
      counts := new int[n](i => 0);
      new;
      NothingRecorded(shape, counts[..]);
    }

    /** hdr_init. The counts fit the arithmetic if few enough buckets are needed; then all
        trackable values are accepted, to the precision asked for. */
    static method Init(lowest: nat, highest: int, figures: int) returns (r: int, h: Histogram?)
      requires lowest >= 1
      requires 1 <= figures <= 5 ==>
        var s := Start(lowest, figures); s.unit + s.half + 1 <= 31 && highest <= Shl(s.Mask(), 30 - s.unit)
      ensures r == if 1 <= figures <= 5 then OK else EINVAL
      ensures r == OK ==>
        h != null && fresh(h) && fresh(h.counts) && h.Valid() && h.recorded == [] && h.highest == highest &&
        Sized(h.shape, lowest, highest, figures) && highest < Limit(h.shape) &&
        Power10(figures) <= h.shape.HalfCount()
    {
      hide Shl, BitLength, Limit, Counts, Sorted;
      if figures < 1 || 5 < figures { return EINVAL, null; }
      var sh := Start(lowest, figures);
      FiguresFit(figures);
      HalfIs(sh);
      var mask := sh.Mask();
      var trackable, needed := mask, 1;
      ShlOnce(mask);
      while trackable < highest
        invariant 1 <= needed <= 31 - sh.unit && trackable == Shl(mask, needed - 1)
        invariant needed > 1 ==> Shl(mask, needed - 2) < highest
        decreases 31 - sh.unit - needed
      {
        FewBuckets(sh, needed - 1, 30 - sh.unit);
        ShlDoubles(mask, needed);
        trackable, needed := 2 * trackable, needed + 1;
      }
      var shape := sh.(buckets := needed);
      Covers(shape, highest);
      h := new Histogram(shape, highest);
      r := OK;
    }

    /** hdr_reset */
    method Reset()
      requires Valid()
      modifies this, counts
      ensures Valid() && recorded == []
    {
      totalCount, recorded := 0, [];
      for i := 0 to counts.Length
        invariant totalCount == 0 && recorded == []
        invariant forall j :: 0 <= j < i ==> counts[j] == 0
      {
        counts[i] := 0;
      }
      NothingRecorded(shape, counts[..]);
    }

    /** hdr_record_values, for a count that is not negative. A value is recorded exactly if
        it is below the limit of the shape. */
    method RecordValues(value: int, count: nat) returns (ok: bool)
      requires Valid() && Int64(value)
      modifies this, counts
      ensures Valid() && (ok <==> 0 <= value < Limit(shape))
      ensures recorded == if ok then InsertMany(old(recorded), value, count) else old(recorded)
    {
      AcceptedIs(shape, value);
      var i := CellOf(shape, value);
      if i < 0 || counts.Length <= i { return false; }
      CountsMany(shape, recorded, counts[..], value, count);
      counts[i] := counts[i] + count;
      totalCount := totalCount + count;
      recorded := InsertMany(recorded, value, count);
      ok := true;
    }

    /** hdr_record_value */
    method RecordValue(value: int) returns (ok: bool)
      requires Valid() && Int64(value)
      modifies this, counts
      ensures Valid() && (ok <==> 0 <= value < Limit(shape))
      ensures recorded == if ok then Insert(old(recorded), value) else old(recorded)
    {
      AcceptedIs(shape, value);
      var i := CellOf(shape, value);
      if i < 0 || counts.Length <= i { return false; }
      CountsMany(shape, recorded, counts[..], value, 1);
      counts[i] := counts[i] + 1;
      totalCount := totalCount + 1;
      assert InsertMany(recorded, value, 1) == Insert(InsertMany(recorded, value, 0), value);
      recorded := Insert(recorded, value);
      ok := true;
    }

    /** hdr_record_corrected_value */
    method RecordCorrected(value: int, interval: int) returns (ok: bool)
      requires Valid() && Int64(value) && Int64(interval)
      modifies this, counts
      ensures Valid() && (ok <==> 0 <= value < Limit(shape))
      ensures recorded == if ok then InsertAll(old(recorded), Backfill(value, interval)) else old(recorded)
      ensures ok && interval > 0 ==> totalCount == old(totalCount) + Max(1, value / interval)
    {
      hide Counts, Sorted, Limit, Insert, InsertAll, Backfill;
      if interval > 0 && value >= 0 {
        BackfillLength(value, interval);
        InsertAllLength(recorded, Backfill(value, interval));
      }
      ok := RecordValue(value);
      if !ok || interval <= 0 || value <= interval {
        if ok { BackfillOnce(old(recorded), value, interval); }
        return;
      }
      var missing := value - interval;
      BackfillFirst(old(recorded), value, interval);
      while missing >= interval
        invariant Valid() && missing < value && missing + interval > 0
        invariant InsertAll(old(recorded), Backfill(value, interval)) ==
          if missing >= interval then InsertAll(recorded, Backfill(missing, interval)) else recorded
        decreases missing
      {
        BackfillFirst(recorded, missing, interval);
        var more := RecordValue(missing);
        if !more { return false; }
        missing := missing - interval;
      }
    }
  }

  lemma {:induction false} InsertAllLength(s: seq<int>, vs: seq<int>)
    ensures |InsertAll(s, vs)| == |s| + |vs|
    decreases |vs|
  {
    if vs != [] { InsertAllLength(Insert(s, vs[0]), vs[1..]); }
  }

  lemma {:induction false} InsertOne(s: seq<int>, v: int)
    ensures InsertAll(s, [v]) == Insert(s, v)
  {
    assert [v][1..] == [];
  }

  lemma {:induction false} BackfillOnce(s: seq<int>, value: int, interval: int)
    requires interval <= 0 || value <= interval
    ensures InsertAll(s, Backfill(value, interval)) == Insert(s, value)
  {
    InsertOne(s, value);
  }

  lemma {:induction false} BackfillFirst(s: seq<int>, value: int, interval: int)
    requires interval > 0 && value >= interval
    ensures InsertAll(s, Backfill(value, interval)) ==
      if value - interval >= interval then InsertAll(Insert(s, value), Backfill(value - interval, interval))
        else Insert(s, value)
  {
    if value - interval >= interval {
      assert ([value] + Backfill(value - interval, interval))[1..] == Backfill(value - interval, interval);
    } else {
      InsertOne(s, value);
    }
  }

  // ----- iteration -----

  /** hdr_iter: after `n` cells, it shows the last of them. */
  class Iter {
    const h: Histogram
    var bucket: int
    var sub: int
    var countAt: int
    var countTo: int
    var value: int
    var highest: int
    ghost var n: nat

    ghost predicate Valid()
      reads this, h, h.counts
    {
      h.Valid() && n <= h.counts.Length && countTo == SumTo(h.counts[..], n) &&
      if n == 0 then bucket == 0 && sub == -1
      else
        bucket >= 0 && sub >= 0 && PlaceAt(h.shape, n - 1) == Place(bucket, sub) && countAt == h.counts[n - 1] &&
        value == Low(h.shape, n - 1) && highest == Low(h.shape, n) - 1
    }

    /** hdr_iter_init */
    constructor (hist: Histogram)
      requires hist.Valid()
      ensures Valid() && h == hist && n == 0 && value == 0 && highest == 0
    {
      h, bucket, sub, countAt, countTo, value, highest, n := hist, 0, -1, 0, 0, 0, 0, 0;
    }

    /** hdr_iter_next: the next cell, as long as there are counts; it never leaves the
        array. */
    method Next() returns (more: bool)
      requires Valid()
      modifies this
      ensures Valid() && (more <==> old(countTo) < h.totalCount)
      ensures more ==> n == old(n) + 1
      ensures !more ==> n == old(n) && unchanged(this)
    {
      hide Shl, PlaceAt, HighestEquivalent, CountAt, Sorted;
      if countTo >= h.totalCount { return false; }
      SumIsLength(h.shape, h.recorded, h.counts[..]);
      assert n < h.counts.Length;
      CellAt(h.shape, n);
      sub := sub + 1;
      if sub >= h.shape.Count() { sub, bucket := h.shape.HalfCount(), bucket + 1; }
      assert PlaceAt(h.shape, n) == Place(bucket, sub);
      assert bucket < h.shape.buckets;
      countAt := h.counts[h.shape.CountsIndex(bucket, sub)];
      countTo := countTo + countAt;
      value := h.shape.ValueFromIndex(bucket, sub);
      highest := HighestEquivalent(h.shape, value);
      n := n + 1;
      more := true;
    }
  }

  /** What move_next computes for cell `n`. */
  lemma {:induction false} CellAt(sh: Shape, n: nat)
    requires Fits(sh) && n < sh.CountsLen()
    ensures var p := PlaceAt(sh, n);
      p.In(sh) && p.Index(sh) == n && p.bucket < sh.buckets && p.Low(sh) == Low(sh, n) && InRange(sh, Low(sh, n)) &&
      HighestEquivalent(sh, Low(sh, n)) == Low(sh, n + 1) - 1 && CellOf(sh, Low(sh, n)) == n
    ensures sh.HalfCount() >= 1 && (n > 0 ==> PlaceAt(sh, n) == PlaceAt(sh, n - 1).Next(sh)) &&
      (n == 0 ==> PlaceAt(sh, n) == Place(0, 0))
  {
    HalfIs(sh);
    PlaceAtIs(sh, n);
    BucketInRange(sh, PlaceAt(sh, n));
    LimitIs(sh);
    LowMonotone(sh, n, sh.CountsLen());
    CellOfLow(sh, n);
    EquivalentsAre(sh, Low(sh, n));
  }

  // ----- queries -----

  /** hdr_max: the lowest equivalent of the largest recorded value; 0 if there is none. */
  method HdrMax(h: Histogram) returns (r: int)
    requires h.Valid()
    ensures r == if h.recorded == [] then 0 else LowestEquivalent(h.shape, h.recorded[|h.recorded| - 1])
  {
    hide Counts, Sorted, SumTo, MaxSoFar, LowestEquivalent, HighestEquivalent, PlaceAt, Limit, CellOf;
    ghost var s, counts := h.recorded, h.counts[..];
    MaxStarts(h.shape, s, counts);
    var max := 0;
    var iter := new Iter(h);
    var more := iter.Next();
    while more
      invariant iter.Valid() && iter.h == h && fresh(iter)
      invariant (more ==> iter.n > 0) && (!more ==> iter.countTo >= h.totalCount)
      invariant MaxSoFar(h.shape, s, counts, if more then iter.n - 1 else iter.n, max)
      decreases h.counts.Length - iter.n + if more then 1 else 0
    {
      MaxStep(h.shape, s, counts, iter.n - 1, max);
      if iter.countAt != 0 { max := iter.highest; }
      more := iter.Next();
    }
    MaxDone(h.shape, s, counts, iter.n, max);
    r := LowestEquivalent(h.shape, max);
  }

  /** The highest equivalent of the largest value in the first `n` cells, or 0. */
  ghost predicate MaxSoFar(sh: Shape, s: seq<int>, counts: seq<int>, n: nat, max: int) {
    n <= |counts| && Counts(sh, s, counts) && Sorted(s) &&
    var k := SumTo(counts, n);
    0 <= k <= |s| && max == if k == 0 then 0 else HighestEquivalent(sh, s[k - 1])
  }

  lemma {:induction false} MaxStarts(sh: Shape, s: seq<int>, counts: seq<int>)
    requires Counts(sh, s, counts) && Sorted(s)
    ensures MaxSoFar(sh, s, counts, 0, 0) && Fits(sh)
  {
  }

  lemma {:induction false} MaxStep(sh: Shape, s: seq<int>, counts: seq<int>, n: nat, max: int)
    requires MaxSoFar(sh, s, counts, n, max) && n < |counts|
    ensures MaxSoFar(sh, s, counts, n + 1, if counts[n] != 0 then Low(sh, n + 1) - 1 else max)
  {
    SumMonotone(sh, s, counts, n, n + 1);
    SumMonotone(sh, s, counts, n + 1, |counts|);
    SumIsLength(sh, s, counts);
    if counts[n] != 0 {
      RankCell(sh, s, counts, n, SumTo(counts, n + 1));
      EquivalentsAre(sh, s[SumTo(counts, n + 1) - 1]);
    }
  }

  lemma {:induction false} MaxDone(sh: Shape, s: seq<int>, counts: seq<int>, n: nat, max: int)
    requires MaxSoFar(sh, s, counts, n, max) && SumTo(counts, n) >= |s|
    ensures Int64(max) && LowestEquivalent(sh, max) == if s == [] then 0 else LowestEquivalent(sh, s[|s| - 1])
  {
    LimitIs(sh);
    if s == [] {
      LowestInRange(sh, 0);
      CellIs(sh, 0);
      LowMonotone(sh, 0, CellOf(sh, 0));
    } else {
      var v := s[|s| - 1];
      HighestIs(sh, v);
    }
  }

  lemma {:induction false} HighestIs(sh: Shape, v: int)
    requires Fits(sh) && InRange(sh, v)
    ensures var m := HighestEquivalent(sh, v);
      v <= m && InRange(sh, m) && LowestEquivalent(sh, m) == LowestEquivalent(sh, v) <= v
  {
    LimitIs(sh);
    EquivalentsAre(sh, v);
    CellIs(sh, v);
    CellInRange(sh, v);
    var c := CellOf(sh, v);
    LowNext(sh, c);
    LowMonotone(sh, c + 1, sh.CountsLen());
    CellUnique(sh, HighestEquivalent(sh, v), c);
    EquivalentsAre(sh, HighestEquivalent(sh, v));
  }

  /** hdr_min: the lowest equivalent of the smallest recorded value; 0 if there is none. */
  method HdrMin(h: Histogram) returns (r: int)
    requires h.Valid()
    ensures r == if h.recorded == [] then 0 else LowestEquivalent(h.shape, h.recorded[0])
  {
    var iter := new Iter(h);
    var more := iter.Next();
    while more
      invariant iter.Valid() && iter.h == h && fresh(iter)
      invariant (more ==> iter.n > 0 && SumTo(h.counts[..], iter.n - 1) == 0) &&
        (!more ==> iter.countTo >= h.totalCount)
      invariant !more ==> h.recorded == []
      decreases h.counts.Length - iter.n + if more then 1 else 0
    {
      SumMonotone(h.shape, h.recorded, h.counts[..], iter.n - 1, iter.n);
      if iter.countTo != 0 {
        RankCell(h.shape, h.recorded, h.counts[..], iter.n - 1, 1);
        LowestInRange(h.shape, h.recorded[0]);
        return iter.value;
      }
      more := iter.Next();
    }
    r := 0;
  }

  lemma {:induction false} LengthIsCountsLen(sh: Shape, s: seq<int>, counts: seq<int>)
    requires Counts(sh, s, counts)
    ensures Fits(sh) && |counts| == sh.CountsLen() && forall i :: 0 <= i < |s| ==> InRange(sh, s[i])
  {
  }

  lemma {:induction false} HighestOfCell(sh: Shape, v: int)
    requires Fits(sh) && InRange(sh, v)
    ensures CellOf(sh, v) >= 0 && HighestEquivalent(sh, v) == Low(sh, CellOf(sh, v) + 1) - 1
  {
    EquivalentsAre(sh, v);
  }

  /** hdr_value_at_percentile, for the rank `k` that the percentile stands for: the highest
      equivalent of the value with that rank; 0 if there are not as many. */
  method ValueAtRank(h: Histogram, k: nat) returns (r: int)
    requires h.Valid() && k >= 1
    ensures r == if k <= |h.recorded| then HighestEquivalent(h.shape, h.recorded[k - 1]) else 0
  {
    hide Counts, Sorted, LowestEquivalent, HighestEquivalent, PlaceAt, Limit, CellOf;
    LengthIsCountsLen(h.shape, h.recorded, h.counts[..]);
    var iter := new Iter(h);
    var total := 0;
    var more := iter.Next();
    while more
      invariant iter.Valid() && iter.h == h && fresh(iter) && total < k
      invariant (more ==> iter.n > 0) && (!more ==> iter.countTo >= h.totalCount)
      invariant total == SumTo(h.counts[..], if more then iter.n - 1 else iter.n)
      decreases h.counts.Length - iter.n + if more then 1 else 0
    {
      total := total + iter.countAt;
      if total >= k {
        RankCell(h.shape, h.recorded, h.counts[..], iter.n - 1, k);
        HighestOfCell(h.shape, h.recorded[k - 1]);
        CellAt(h.shape, iter.n - 1);
        return HighestEquivalent(h.shape, iter.value);
      }
      more := iter.Next();
    }
    r := 0;
  }

  /** The rank that a percentile stands for. */
  function RankOf(percentile: real, total: nat): nat {
    var requested := if percentile < 100.0 then percentile else 100.0;
    var count := (requested / 100.0 * total as real + 0.5).Floor;
    if count > 1 then count else 1
  }

  lemma {:induction false} RankInRange(percentile: real, total: nat)
    requires total > 0
    ensures 1 <= RankOf(percentile, total) <= total
    ensures percentile >= 100.0 ==> RankOf(percentile, total) == total
  {
    var requested := if percentile < 100.0 then percentile else 100.0;
    Scaled(requested / 100.0, total as real);
    assert requested / 100.0 * total as real + 0.5 < (total + 1) as real;
  }

  lemma {:induction false} Scaled(x: real, y: real)
    requires x <= 1.0 && y >= 0.0
    ensures x * y <= y && (x == 1.0 ==> x * y == y)
  {
  }

  /** hdr_value_at_percentile, with exact arithmetic: a recorded value, up to the width of
      its cell, if there is one. */
  method ValueAtPercentile(h: Histogram, percentile: real) returns (r: int)
    requires h.Valid()
    ensures |h.recorded| == 0 ==> r == 0
    ensures |h.recorded| > 0 ==>
      var k := RankOf(percentile, |h.recorded|);
      1 <= k <= |h.recorded| && r == HighestEquivalent(h.shape, h.recorded[k - 1])
  {
    if |h.recorded| > 0 { RankInRange(percentile, |h.recorded|); }
    r := ValueAtRank(h, RankOf(percentile, h.totalCount));
  }

  /** Higher ranks give higher values, which bound the recorded ones from above. */
  lemma {:induction false} RanksMonotone(sh: Shape, s: seq<int>, j: nat, k: nat)
    requires Tracked(sh, s) && Sorted(s) && 1 <= j <= k <= |s|
    ensures s[j - 1] <= HighestEquivalent(sh, s[j - 1]) <= HighestEquivalent(sh, s[k - 1])
  {
    var v, w := s[j - 1], s[k - 1];
    HighestIs(sh, v);
    EquivalentsAre(sh, v);
    EquivalentsAre(sh, w);
    CellMonotone(sh, v, w);
    LowMonotone(sh, CellOf(sh, v) + 1, CellOf(sh, w) + 1);
  }

  /** hdr_count_at_value, for a value in range. */
  method CountAtValue(h: Histogram, value: int) returns (r: int)
    requires h.Valid() && InRange(h.shape, value)
    ensures CellOf(h.shape, value) >= 0 && r == CountAt(h.shape, h.recorded, CellOf(h.shape, value))
  {
    CellInRange(h.shape, value);
    r := h.counts[CellOf(h.shape, value)];
  }

  // ----- beyond the highest trackable value -----

  /** A value above the highest trackable one is refused exactly from the limit on. */
  lemma {:induction false} RefusedIs(sh: Shape, lowest: nat, highest: int, figures: nat, value: int)
    requires lowest >= 1 && Fits(sh) && Sized(sh, lowest, highest, figures) && Int64(value) && value > highest >= 0
    ensures !Accepted(sh, value) <==> value >= Limit(sh)
  {
    AcceptedIs(sh, value);
  }

  /** All values above the highest trackable one are refused exactly if that is the last
      one below the limit. */
  lemma {:induction false} DocumentedIs(sh: Shape, lowest: nat, highest: int, figures: nat)
    requires lowest >= 1 && Fits(sh) && Sized(sh, lowest, highest, figures) && highest >= 0
    ensures highest < Limit(sh) <= INT64_MAX
    ensures (forall v {:trigger Accepted(sh, v)} :: Int64(v) && v > highest ==> !Accepted(sh, v)) <==>
      highest + 1 == Limit(sh)
  {
    Covers(sh, highest);
    LimitIs(sh);
    hide Limit, CellOf, Shl;
    AcceptedIs(sh, highest + 1);
    forall v {:trigger Accepted(sh, v)} | Int64(v) && v > highest ensures !Accepted(sh, v) <==> v >= Limit(sh) {
      RefusedIs(sh, lowest, highest, figures, v);
    }
  }

  lemma {:induction false} SmallShape(sh: Shape)
    requires Sized(sh, 1, 1000, 1)
    ensures sh == Shape(0, 4, 7) && Fits(sh) && Limit(sh) == 2048
  {
    var s := Shape(0, 4, 7);
    assert s.Mask() == 31;
    assert Shl(31, 6) == 1984 && Shl(31, 5) == 992;
    assert Shl(1, 11) == 2048;
    SizedOnce(sh, s, 1, 1000, 1);
  }

  /** For values from 1 to 1000 with one figure, 2047 is recorded, and for 2048 the
      assertions of counts_index fail. */
  method AboveHighest() returns (h: Histogram?, ok: bool)
    ensures h != null && h.highest == 1000 && ok && h.recorded == [2047]
    ensures var sh, b := h.shape, h.shape.BucketIndex(2048); b >= 0 && !sh.Asserts(b, sh.SubBucketIndex(2048, b))
  {
    var r;
    SmallStart();
    r, h := Histogram.Init(1, 1000, 1);
    SmallShape(h.shape);
    AcceptedIs(h.shape, 2048);
    ok := h.RecordValue(2047);
    assert Insert([], 2047) == [2047];
  }

  lemma {:induction false} SmallStart()
    ensures Start(1, 1) == Shape(0, 4, 1) && Start(1, 1).Mask() == 31 && 1000 <= Shl(31, 30)
  {
    assert Shl(31, 6) == 1984;
    assert Start(1, 1).Mask() == 31;
    MoreBuckets(Start(1, 1), 6, 30);
  }

  // ----- adding -----

  /** hdr_recorded_iter_next: the next cell that is not empty. */
  method RecordedNext(iter: Iter) returns (more: bool)
    requires iter.Valid()
    modifies iter
    ensures iter.Valid() && iter.n >= old(iter.n)
    ensures more ==>
      iter.n > old(iter.n) && iter.countAt != 0 && old(iter.countTo) < iter.h.totalCount &&
      SumTo(iter.h.counts[..], iter.n - 1) == SumTo(iter.h.counts[..], old(iter.n))
    ensures !more ==>
      iter.countTo >= iter.h.totalCount &&
      SumTo(iter.h.counts[..], iter.n) == SumTo(iter.h.counts[..], old(iter.n))
  {
    more := iter.Next();
    while more
      invariant iter.Valid() && iter.n >= old(iter.n)
      invariant more ==>
        iter.n > old(iter.n) && old(iter.countTo) < iter.h.totalCount &&
        SumTo(iter.h.counts[..], iter.n - 1) == SumTo(iter.h.counts[..], old(iter.n))
      invariant !more ==>
        iter.countTo >= iter.h.totalCount && SumTo(iter.h.counts[..], iter.n) == SumTo(iter.h.counts[..], old(iter.n))
      decreases iter.h.counts.Length - iter.n + if more then 1 else 0
    {
      if iter.countAt != 0 { return true; }
      more := iter.Next();
    }
  }

  /** The values of one cell more. */
  lemma {:induction false} AddCell(to: Shape, s: seq<int>, from: Shape, xs: seq<int>, counts: seq<int>, n: nat)
    requires Fits(to) && Counts(from, xs, counts) && Sorted(xs) && n < |counts|
    ensures 0 <= SumTo(counts, n) <= SumTo(counts, n + 1) <= |xs| && counts[n] >= 0
    ensures var a, b, v := xs[..SumTo(counts, n)], xs[..SumTo(counts, n + 1)], Low(from, n);
      if 0 <= v < Limit(to) then
        Absorbed(to, s, from, b) == InsertMany(Absorbed(to, s, from, a), v, counts[n]) &&
        Dropped(to, from, b) == Dropped(to, from, a)
      else
        Absorbed(to, s, from, b) == Absorbed(to, s, from, a) && Dropped(to, from, b) == Dropped(to, from, a) + counts[n]
  {
    hide CellOf, LowestEquivalent, Limit, CountAt, PlaceAt;
    SumMonotone(from, xs, counts, n, n + 1);
    SumMonotone(from, xs, counts, n + 1, |counts|);
    SumIsLength(from, xs, counts);
    var p, q := SumTo(counts, n), SumTo(counts, n + 1);
    assert xs[..q][..p] == xs[..p];
    forall i | p <= i < q ensures CellOf(from, xs[..q][i]) == n { RankCell(from, xs, counts, n, i + 1); }
    AbsorbedSegment(to, s, from, xs[..q], n, p);
  }

  ghost predicate AddedSoFar(to: Shape, s: seq<int>, from: Shape, xs: seq<int>, counts: seq<int>, n: nat,
                             now: seq<int>, dropped: int) {
    Fits(to) && Counts(from, xs, counts) && Sorted(xs) && n <= |counts| &&
    var p := SumTo(counts, n);
    0 <= p <= |xs| && now == Absorbed(to, s, from, xs[..p]) && dropped == Dropped(to, from, xs[..p])
  }

  lemma {:induction false} AddStarts(to: Shape, s: seq<int>, from: Shape, xs: seq<int>, counts: seq<int>)
    requires Fits(to) && Counts(from, xs, counts) && Sorted(xs)
    ensures AddedSoFar(to, s, from, xs, counts, 0, s, 0)
  {
    assert xs[..0] == [];
  }

  lemma {:induction false} AddNext(to: Shape, s: seq<int>, from: Shape, xs: seq<int>, counts: seq<int>, n: nat,
                                   now: seq<int>, dropped: int)
    requires AddedSoFar(to, s, from, xs, counts, n, now, dropped) && n < |counts|
    ensures counts[n] >= 0 && Int64(Low(from, n))
    ensures if 0 <= Low(from, n) < Limit(to) then
        AddedSoFar(to, s, from, xs, counts, n + 1, InsertMany(now, Low(from, n), counts[n]), dropped)
      else AddedSoFar(to, s, from, xs, counts, n + 1, now, dropped + counts[n])
  {
    AddCell(to, s, from, xs, counts, n);
    CellAt(from, n);
  }

  /** Cells without counts change nothing. */
  lemma {:induction false} AddSkips(to: Shape, s: seq<int>, from: Shape, xs: seq<int>, counts: seq<int>, m: nat, n: nat,
                                    now: seq<int>, dropped: int)
    requires AddedSoFar(to, s, from, xs, counts, m, now, dropped) && m <= n <= |counts| &&
      SumTo(counts, m) == SumTo(counts, n)
    ensures AddedSoFar(to, s, from, xs, counts, n, now, dropped)
  {
  }

  lemma {:induction false} AddEnds(to: Shape, s: seq<int>, from: Shape, xs: seq<int>, counts: seq<int>, n: nat,
                                   now: seq<int>, dropped: int)
    requires AddedSoFar(to, s, from, xs, counts, n, now, dropped) && SumTo(counts, n) >= |xs|
    ensures now == Absorbed(to, s, from, xs) && dropped == Dropped(to, from, xs) && |now| + dropped == |s| + |xs|
  {
    assert xs[..|xs|] == xs;
    AbsorbedLength(to, s, from, xs);
  }

  /** hdr_add, for two histograms that share no counts, or an empty one and itself: the
      lowest equivalents of all values are added, and those out of range dropped and
      counted. */
  method HdrAdd(h: Histogram, from: Histogram) returns (dropped: int)
    requires h.Valid() && from.Valid() && ((h != from && h.counts != from.counts) || (h == from && h.totalCount == 0))
    modifies h, h.counts
    ensures h.Valid() && from.Valid()
    ensures h.recorded == Absorbed(h.shape, old(h.recorded), from.shape, old(from.recorded))
    ensures dropped == Dropped(h.shape, from.shape, old(from.recorded))
    ensures h.totalCount + dropped == old(h.totalCount) + old(from.totalCount)
  {
    hide Counts, Sorted, AddedSoFar, SumTo, CellOf, Shl, PlaceAt, HighestEquivalent;
    ghost var counts, xs, s := from.counts[..], from.recorded, h.recorded;
    ghost var to := h.shape;
    var iter := new Iter(from);
    dropped := 0;
    TrackedFits(to, s, h.counts[..]);
    AddStarts(to, s, from.shape, xs, counts);
    var more := RecordedNext(iter);
    AddSkips(to, s, from.shape, xs, counts, 0, if more then iter.n - 1 else iter.n, s, 0);
    while more
      invariant h.Valid() && iter.Valid() && iter.h == from && fresh(iter) && counts == from.counts[..] &&
        xs == from.recorded
      invariant (more ==> iter.n > 0 && h != from && h.counts != from.counts) &&
        (!more ==> iter.countTo >= from.totalCount)
      invariant AddedSoFar(to, s, from.shape, xs, counts, if more then iter.n - 1 else iter.n, h.recorded, dropped)
      decreases from.counts.Length - iter.n + if more then 1 else 0
    {
      AddNext(to, s, from.shape, xs, counts, iter.n - 1, h.recorded, dropped);
      var ok := h.RecordValues(iter.value, iter.countAt);
      if !ok { dropped := dropped + iter.countAt; }
      ghost var m := iter.n;
      more := RecordedNext(iter);
      AddSkips(to, s, from.shape, xs, counts, m, if more then iter.n - 1 else iter.n, h.recorded, dropped);
    }
    AddEnds(to, s, from.shape, xs, counts, iter.n, h.recorded, dropped);
  }

  lemma {:induction false} TrackedFits(sh: Shape, s: seq<int>, counts: seq<int>)
    requires Counts(sh, s, counts)
    ensures Fits(sh) && Tracked(sh, s)
  {
  }

  /** The step from cell to cell, also behind the last one. */
  lemma {:induction false} PlaceNext(sh: Shape, n: nat, bucket: int, sub: int)
    requires Fits(sh)
    requires if n == 0 then bucket == 0 && sub == -1
             else bucket >= 0 && sub >= 0 && PlaceAt(sh, n - 1) == Place(bucket, sub)
    ensures sh.HalfCount() >= 1
    ensures PlaceAt(sh, n) ==
      if sub + 1 >= sh.Count() then Place(bucket + 1, sh.HalfCount()) else Place(bucket, sub + 1)
    ensures var p := PlaceAt(sh, n);
      p.In(sh) && (p.bucket < sh.buckets <==> n < sh.CountsLen()) && (n < sh.CountsLen() ==> p.Index(sh) == n)
  {
    HalfIs(sh);
    PlaceAtIs(sh, n);
    BucketInRange(sh, PlaceAt(sh, n));
  }

  /** hdr_add of a histogram to itself, for at most `steps` cells: every count that the
      iteration passes is added to the total at once, so that counts always seem to be
      left, also behind the last cell. It ends exactly if nothing is recorded. */
  method AddToItself(h: Histogram, steps: nat) returns (ended: bool)
    requires h.Valid()
    modifies h, h.counts
    ensures h.Valid()
    ensures steps > 0 ==> (ended <==> old(h.totalCount) == 0)
  {
    hide Counts, Sorted, SumTo, CellOf, Shl, PlaceAt, HighestEquivalent, Limit;
    ghost var sh, total := h.shape, h.totalCount;
    LengthIsCountsLen(sh, h.recorded, h.counts[..]);
    LimitIs(sh);
    var bucket, sub, countAt, countTo, value, n := 0, -1, 0, 0, 0, 0;
    while n < steps
      invariant h.Valid() && countAt >= 0 && h.totalCount >= total + countTo && total >= 0 && Int64(value)
      invariant total == 0 ==> n == 0 && countTo == 0 && h.totalCount == 0
      invariant if n == 0 then bucket == 0 && sub == -1
                else bucket >= 0 && sub >= 0 && PlaceAt(sh, n - 1) == Place(bucket, sub)
      invariant n > 0 ==> 0 <= value < Limit(sh)
      invariant h.counts.Length == sh.CountsLen() >= 1
    {
      if countTo >= h.totalCount { return true; }
      PlaceNext(sh, n, bucket, sub);
      sub := sub + 1;
      if sub >= h.shape.Count() { sub, bucket := h.shape.HalfCount(), bucket + 1; }
      if bucket < h.shape.buckets {
        CellAt(sh, n);
        CountsAre(sh, h.recorded, h.counts[..], n);
        countAt := h.counts[h.shape.CountsIndex(bucket, sub)];
        countTo := countTo + countAt;
        value := h.shape.ValueFromIndex(bucket, sub);
      }
      if countAt != 0 {
        ghost var before := h.recorded;
        var ok := h.RecordValues(value, countAt);
        ManyLength(before, value, countAt);
      }
      n := n + 1;
    }
    ended := false;
  }

  lemma {:induction false} CountsAre(sh: Shape, s: seq<int>, counts: seq<int>, n: nat)
    requires Counts(sh, s, counts) && n < |counts|
    ensures counts[n] >= 0
  {
  }

  lemma {:induction false} ManyLength(s: seq<int>, v: int, n: nat)
    ensures |InsertMany(s, v, n)| == |s| + n
  {
    if n > 0 { ManyLength(s, v, n - 1); InsertAdds(InsertMany(s, v, n - 1), v); }
  }
}
