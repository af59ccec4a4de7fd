/** Sorted lists of recorded values, and how many of them are in each cell of a histogram. */
module HdrLists {
  import opened Numbers
  import opened HdrIndex

  predicate Sorted(s: seq<int>) { forall i, j :: 0 <= i < j < |s| ==> s[i] <= s[j] }

  function Insert(s: seq<int>, v: int): (r: seq<int>)
    ensures |r| == |s| + 1
  {
    if s == [] || v <= s[0] then [v] + s else [s[0]] + Insert(s[1..], v)
  }

  lemma {:induction false} InsertHolds(s: seq<int>, v: int, i: nat)
    requires i < |Insert(s, v)|
    ensures Insert(s, v)[i] == v || Insert(s, v)[i] in s
  {
    if s != [] && v > s[0] && i > 0 { InsertHolds(s[1..], v, i - 1); }
  }

  lemma {:induction false} InsertSorted(s: seq<int>, v: int)
    requires Sorted(s)
    ensures Sorted(Insert(s, v))
  {
    if s != [] && v > s[0] {
      InsertSorted(s[1..], v);
      var t := Insert(s[1..], v);
      forall j | 0 <= j < |t| ensures s[0] <= t[j] { InsertHolds(s[1..], v, j); }
    }
  }

  lemma {:induction false} InsertAdds(s: seq<int>, v: int)
    ensures multiset(Insert(s, v)) == multiset(s) + multiset{v}
  {
    if s != [] && v > s[0] {
      InsertAdds(s[1..], v);
      assert s == [s[0]] + s[1..];
    }
  }

  function InsertMany(s: seq<int>, v: int, n: nat): seq<int> {
    if n == 0 then s else Insert(InsertMany(s, v, n - 1), v)
  }

  function InsertAll(s: seq<int>, vs: seq<int>): seq<int>
    decreases |vs|
  {
    if vs == [] then s else InsertAll(Insert(s, vs[0]), vs[1..])
  }

  // ----- cells -----

  predicate InRange(sh: Shape, v: int) { 0 <= v < Limit(sh) && Int64(v) }

  predicate Tracked(sh: Shape, s: seq<int>) { Fits(sh) && forall i :: 0 <= i < |s| ==> InRange(sh, s[i]) }

  /** How many values are in cell `n`. */
  function CountAt(sh: Shape, s: seq<int>, n: nat): nat
    requires Tracked(sh, s)
  {
    if s == [] then 0 else (if CellOf(sh, s[0]) == n then 1 else 0) + CountAt(sh, s[1..], n)
  }

  /** How many values are in the first `n` cells. */
  function Below(sh: Shape, s: seq<int>, n: nat): nat
    requires Tracked(sh, s)
  {
    if s == [] then 0 else (if CellOf(sh, s[0]) < n then 1 else 0) + Below(sh, s[1..], n)
  }

  lemma {:induction false} InsertTracked(sh: Shape, s: seq<int>, v: int)
    requires Tracked(sh, s) && InRange(sh, v)
    ensures Tracked(sh, Insert(s, v))
  {
    if s != [] && v > s[0] { InsertTracked(sh, s[1..], v); }
  }

  lemma {:induction false} InsertCount(sh: Shape, s: seq<int>, v: int, n: nat)
    requires Tracked(sh, s) && InRange(sh, v)
    ensures Tracked(sh, Insert(s, v))
    ensures CountAt(sh, Insert(s, v), n) == CountAt(sh, s, n) + if CellOf(sh, v) == n then 1 else 0
  {
    hide CellOf;
    InsertTracked(sh, s, v);
    var t := Insert(s, v);
    if s == [] || v <= s[0] {
      assert t[1..] == s;
    } else {
      InsertCount(sh, s[1..], v, n);
      assert t[1..] == Insert(s[1..], v);
    }
  }

  lemma {:induction false} BelowNext(sh: Shape, s: seq<int>, n: nat)
    requires Tracked(sh, s)
    ensures Below(sh, s, n + 1) == Below(sh, s, n) + CountAt(sh, s, n)
  {
    hide CellOf;
    if s != [] { BelowNext(sh, s[1..], n); }
  }

  lemma {:induction false} BelowEnds(sh: Shape, s: seq<int>)
    requires Tracked(sh, s)
    ensures Below(sh, s, 0) == 0 && sh.CountsLen() >= 1 && Below(sh, s, sh.CountsLen()) == |s|
  {
    hide CellOf;
    LimitIs(sh);
    if s != [] {
      BelowEnds(sh, s[1..]);
      CellInRange(sh, s[0]);
    }
  }

  lemma {:induction false} CellInRange(sh: Shape, v: int)
    requires Fits(sh) && InRange(sh, v)
    ensures 0 <= CellOf(sh, v) < sh.CountsLen()
  {
    AcceptedIs(sh, v);
  }

  /** A sorted list has the values of the first `n` cells in front. */
  lemma {:induction false} SortedBelow(sh: Shape, s: seq<int>, n: nat, i: nat)
    requires Tracked(sh, s) && Sorted(s) && i < |s|
    ensures CellOf(sh, s[i]) < n <==> i < Below(sh, s, n)
    decreases |s|
  {
    hide CellOf;
    CellMonotone(sh, s[0], s[i]);
    if CellOf(sh, s[0]) >= n {
      NoneBelow(sh, s, n);
    } else if i > 0 {
      SortedBelow(sh, s[1..], n, i - 1);
    }
  }

  lemma {:induction false} NoneBelow(sh: Shape, s: seq<int>, n: nat)
    requires Tracked(sh, s) && Sorted(s) && (s != [] ==> CellOf(sh, s[0]) >= n)
    ensures Below(sh, s, n) == 0
    decreases |s|
  {
    hide CellOf;
    if |s| > 1 { CellMonotone(sh, s[0], s[1]); }
    if s != [] { NoneBelow(sh, s[1..], n); }
  }

  lemma {:induction false} BelowAtMost(sh: Shape, s: seq<int>, n: nat)
    requires Tracked(sh, s)
    ensures Below(sh, s, n) <= |s|
  {
    if s != [] { BelowAtMost(sh, s[1..], n); }
  }

  // ----- arrays of counts -----

  function SumTo(counts: seq<int>, n: nat): int
    requires n <= |counts|
  {
    if n == 0 then 0 else SumTo(counts, n - 1) + counts[n - 1]
  }

  /** The array holds the number of values in each cell. */
  ghost predicate Counts(sh: Shape, s: seq<int>, counts: seq<int>) {
    Tracked(sh, s) && |counts| == sh.CountsLen() && forall n: nat :: n < |counts| ==> counts[n] == CountAt(sh, s, n)
  }

  lemma {:induction false} SumIsBelow(sh: Shape, s: seq<int>, counts: seq<int>, n: nat)
    requires Counts(sh, s, counts) && n <= |counts|
    ensures SumTo(counts, n) == Below(sh, s, n)
  {
    if n == 0 {
      BelowEnds(sh, s);
    } else {
      SumIsBelow(sh, s, counts, n - 1);
      BelowNext(sh, s, n - 1);
    }
  }

  /** The counts add up to the number of values. */
  lemma {:induction false} SumIsLength(sh: Shape, s: seq<int>, counts: seq<int>)
    requires Counts(sh, s, counts)
    ensures SumTo(counts, |counts|) == |s|
  {
    SumIsBelow(sh, s, counts, |counts|);
    BelowEnds(sh, s);
  }

  /** The value with rank `k` is in the cell where the running sum reaches `k`. */
  lemma {:induction false} RankCell(sh: Shape, s: seq<int>, counts: seq<int>, n: nat, k: nat)
    requires Counts(sh, s, counts) && Sorted(s) && n < |counts| && SumTo(counts, n) < k <= SumTo(counts, n + 1)
    ensures 1 <= k <= |s| && CellOf(sh, s[k - 1]) == n
  {
    SumIsBelow(sh, s, counts, n);
    SumIsBelow(sh, s, counts, n + 1);
    BelowAtMost(sh, s, n + 1);
    SortedBelow(sh, s, n, k - 1);
    SortedBelow(sh, s, n + 1, k - 1);
  }

  lemma {:induction false} SumMonotone(sh: Shape, s: seq<int>, counts: seq<int>, m: nat, n: nat)
    requires Counts(sh, s, counts) && m <= n <= |counts|
    ensures 0 <= SumTo(counts, m) <= SumTo(counts, n)
    decreases n
  {
    if m < n {
      SumMonotone(sh, s, counts, m, n - 1);
    } else if m > 0 {
      SumMonotone(sh, s, counts, m - 1, n - 1);
    }
  }

  // ----- corrected recording -----

  /** The value, and the values that a load without a pause would have had: less by one
      interval after the other. */
  function Backfill(value: int, interval: int): seq<int>
    decreases value
  {
    if interval > 0 && value - interval >= interval then [value] + Backfill(value - interval, interval) else [value]
  }

  lemma {:induction false} BackfillIs(value: int, interval: int, i: nat)
    requires interval > 0 && i < |Backfill(value, interval)|
    ensures Backfill(value, interval)[i] == value - i * interval
    ensures i > 0 ==> Backfill(value, interval)[i] >= interval
    decreases value
  {
    if value - interval >= interval && i > 0 {
      BackfillIs(value - interval, interval, i - 1);
      assert i * interval == (i - 1) * interval + interval;
    }
  }

  /** Corrected recording adds one value for each interval, and at least one. */
  lemma {:induction false} BackfillLength(value: nat, interval: int)
    requires interval > 0
    ensures |Backfill(value, interval)| == Max(1, value / interval)
    decreases value
  {
    if value - interval >= interval {
      BackfillLength(value - interval, interval);
      DivNext(value - interval, interval);
    } else if value >= interval {
      DivNext(value - interval, interval);
      DivIs(value - interval, interval, 0, value - interval);
    } else {
      DivIs(value, interval, 0, value);
    }
  }

  lemma {:induction false} DivNext(v: int, d: int)
    requires d > 0
    ensures (v + d) / d == v / d + 1
  {
    var q := v / d;
    assert v == q * d + v % d && (q + 1) * d == q * d + d;
    DivIs(v + d, d, q + 1, v % d);
  }

  // ----- adding histograms -----

  /** The list `s` with the values `xs` of another histogram, of which only the lowest
      equivalents are known. Those out of range are dropped. */
  function Absorbed(to: Shape, s: seq<int>, from: Shape, xs: seq<int>): seq<int>
    requires Fits(to) && Tracked(from, xs)
  {
    if xs == [] then s
    else
      var v := LowestEquivalent(from, xs[|xs| - 1]);
      var rest := Absorbed(to, s, from, xs[..|xs| - 1]);
      if 0 <= v < Limit(to) then Insert(rest, v) else rest
  }

  function Dropped(to: Shape, from: Shape, xs: seq<int>): nat
    requires Fits(to) && Tracked(from, xs)
  {
    if xs == [] then 0
    else
      Dropped(to, from, xs[..|xs| - 1]) +
      if 0 <= LowestEquivalent(from, xs[|xs| - 1]) < Limit(to) then 0 else 1
  }

  /** Nothing is lost but what is reported as dropped. */
  lemma {:induction false} AbsorbedLength(to: Shape, s: seq<int>, from: Shape, xs: seq<int>)
    requires Fits(to) && Tracked(from, xs)
    ensures |Absorbed(to, s, from, xs)| + Dropped(to, from, xs) == |s| + |xs|
  {
    hide LowestEquivalent;
    if xs != [] { AbsorbedLength(to, s, from, xs[..|xs| - 1]); }
  }

  lemma {:induction false} AbsorbedTracked(to: Shape, s: seq<int>, from: Shape, xs: seq<int>)
    requires Tracked(to, s) && Sorted(s) && Tracked(from, xs)
    ensures Tracked(to, Absorbed(to, s, from, xs)) && Sorted(Absorbed(to, s, from, xs))
  {
    hide LowestEquivalent;
    if xs != [] {
      var v := LowestEquivalent(from, xs[|xs| - 1]);
      AbsorbedTracked(to, s, from, xs[..|xs| - 1]);
      LimitIs(to);
      if 0 <= v < Limit(to) {
        InsertTracked(to, Absorbed(to, s, from, xs[..|xs| - 1]), v);
        InsertSorted(Absorbed(to, s, from, xs[..|xs| - 1]), v);
      }
    }
  }

  lemma {:induction false} CountAppend(sh: Shape, s: seq<int>, v: int, n: nat)
    requires Tracked(sh, s) && InRange(sh, v)
    ensures Tracked(sh, s + [v])
    ensures CountAt(sh, s + [v], n) == CountAt(sh, s, n) + if CellOf(sh, v) == n then 1 else 0
  {
    hide CellOf;
    if s == [] {
      assert s + [v] == [v] && [v][1..] == [];
    } else {
      CountAppend(sh, s[1..], v, n);
      assert (s + [v])[1..] == s[1..] + [v];
    }
  }

  lemma {:induction false} LowestInRange(sh: Shape, v: int)
    requires Fits(sh) && InRange(sh, v)
    ensures InRange(sh, LowestEquivalent(sh, v)) && CellOf(sh, LowestEquivalent(sh, v)) == CellOf(sh, v) >= 0
    ensures LowestEquivalent(sh, v) == Low(sh, CellOf(sh, v))
  {
    EquivalentsAre(sh, v);
    CellIs(sh, v);
    LimitIs(sh);
    CellOfLow(sh, CellOf(sh, v));
  }

  /** Between histograms of the same shape nothing is dropped, and the counts are added
      cell by cell. */
  lemma {:induction false} AbsorbedSame(sh: Shape, s: seq<int>, xs: seq<int>, n: nat)
    requires Tracked(sh, s) && Sorted(s) && Tracked(sh, xs)
    ensures Tracked(sh, Absorbed(sh, s, sh, xs)) && Dropped(sh, sh, xs) == 0
    ensures CountAt(sh, Absorbed(sh, s, sh, xs), n) == CountAt(sh, s, n) + CountAt(sh, xs, n)
  {
    hide LowestEquivalent, CellOf;
    AbsorbedTracked(sh, s, sh, xs);
    if xs != [] {
      var init, x := xs[..|xs| - 1], xs[|xs| - 1];
      AbsorbedSame(sh, s, init, n);
      LowestInRange(sh, x);
      InsertCount(sh, Absorbed(sh, s, sh, init), LowestEquivalent(sh, x), n);
      CountAppend(sh, init, x, n);
      assert xs == init + [x];
    }
  }

  /** A segment of values that are all in cell `n`. */
  lemma {:induction false} AbsorbedSegment(to: Shape, s: seq<int>, from: Shape, xs: seq<int>, n: nat, m: nat)
    requires Fits(to) && Tracked(from, xs) && m <= |xs| && (forall i :: m <= i < |xs| ==> CellOf(from, xs[i]) == n)
    ensures var v := Low(from, n);
      if 0 <= v < Limit(to) then
        Absorbed(to, s, from, xs) == InsertMany(Absorbed(to, s, from, xs[..m]), v, |xs| - m) &&
        Dropped(to, from, xs) == Dropped(to, from, xs[..m])
      else
        Absorbed(to, s, from, xs) == Absorbed(to, s, from, xs[..m]) &&
        Dropped(to, from, xs) == Dropped(to, from, xs[..m]) + |xs| - m
    decreases |xs|
  {
    hide LowestEquivalent, CellOf, Low, Limit;
    if m == |xs| {
      assert xs[..m] == xs;
    } else {
      var init, x := xs[..|xs| - 1], xs[|xs| - 1];
      AbsorbedSegment(to, s, from, init, n, m);
      LowestInRange(from, x);
      assert init[..m] == xs[..m];
    }
  }
}
