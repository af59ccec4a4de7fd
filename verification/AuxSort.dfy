/** auxsort of lib_table.c: a quicksort in place, with a comparison that may be any Lua
    function. What it promises for a strict weak order, and what it keeps whatever the
    comparison answers. */
module AuxSort {
  import opened Numbers

  /** The answer of a comparison; a Lua function may raise an error. */
  datatype Answer = Yes | No | Raises

  datatype Outcome = Done | InvalidOrder | Raised

  // ----- orders -----

  /** x is not after y. */
  predicate NotAfter<T>(less: (T, T) -> bool, x: T, y: T) { !less(y, x) }

  ghost predicate StrictWeak<T(!new)>(less: (T, T) -> bool) {
    (forall x, y :: less(x, y) ==> !less(y, x)) &&
    (forall x, y, z :: NotAfter(less, x, y) && NotAfter(less, y, z) ==> NotAfter(less, x, z))
  }

  /** The comparison is `less`, at every call. */
  ghost predicate Answers<T(!new)>(lt: (nat, T, T) -> Answer, less: (T, T) -> bool) {
    forall n: nat, x, y :: lt(n, x, y) == if less(x, y) then Yes else No
  }

  ghost predicate SortedIn<T>(less: (T, T) -> bool, s: seq<T>, l: int, u: int) {
    forall i, j :: 0 <= l <= i < j <= u < |s| ==> NotAfter(less, s[i], s[j])
  }

  // ----- rearranging -----

  /** `t` is `s` with the elements from `l` to `u` in another order. */
  ghost predicate Rearranged<T>(s: seq<T>, t: seq<T>, l: int, u: int) {
    0 <= l && u < |s| == |t| && (forall i :: 0 <= i < |s| && !(l <= i <= u) ==> t[i] == s[i]) &&
    (l <= u ==> multiset(s[l..u + 1]) == multiset(t[l..u + 1]))
  }

  lemma {:induction false} SameRearranged<T>(s: seq<T>, l: int, u: int)
    requires 0 <= l && u < |s|
    ensures Rearranged(s, s, l, u)
  {
  }

  lemma {:induction false} RearrangedTwice<T>(r: seq<T>, s: seq<T>, t: seq<T>, l: int, u: int)
    requires Rearranged(r, s, l, u) && Rearranged(s, t, l, u)
    ensures Rearranged(r, t, l, u)
  {
  }

  lemma {:induction false} RearrangedWider<T>(s: seq<T>, t: seq<T>, l: int, u: int, a: int, b: int)
    requires Rearranged(s, t, l, u) && 0 <= a <= l && u <= b < |s|
    ensures Rearranged(s, t, a, b)
  {
    if l <= u {
      assert s[a..b + 1] == s[a..l] + s[l..u + 1] + s[u + 1..b + 1];
      assert t[a..b + 1] == t[a..l] + t[l..u + 1] + t[u + 1..b + 1];
      assert s[a..l] == t[a..l] && s[u + 1..b + 1] == t[u + 1..b + 1];
    } else {
      assert s == t;
    }
  }

  lemma {:induction false} SwapRearranges<T>(s: seq<T>, i: int, j: int, l: int, u: int)
    requires 0 <= l <= i <= u < |s| && l <= j <= u
    ensures Rearranged(s, s[i := s[j]][j := s[i]], l, u)
  {
    var t := s[i := s[j]][j := s[i]];
    var a, b := s[l..u + 1], t[l..u + 1];
    assert b == a[i - l := a[j - l]][j - l := a[i - l]];
  }

  /** What is true of all elements of a part stays true when it is rearranged. */
  lemma {:induction false} RearrangedAll<T>(s: seq<T>, t: seq<T>, l: int, u: int, p: T -> bool)
    requires Rearranged(s, t, l, u) && forall i :: l <= i <= u ==> p(s[i])
    ensures forall i :: l <= i <= u ==> p(t[i])
  {
    forall i | l <= i <= u ensures p(t[i]) {
      assert t[i] == t[l..u + 1][i - l];
      assert t[i] in multiset(t[l..u + 1]);
      var k :| 0 <= k < |s[l..u + 1]| && s[l..u + 1][k] == t[i];
      assert s[l + k] == t[i];
    }
  }

  // ----- the sort -----

  /** Before the pivot, the pivot at `i`, and behind it. */
  ghost predicate Split<T>(less: (T, T) -> bool, s: seq<T>, l: int, i: int, u: int) {
    0 <= l <= i <= u < |s| && (forall k :: l <= k < i ==> NotAfter(less, s[k], s[i])) &&
    (forall k :: i < k <= u ==> NotAfter(less, s[i], s[k]))
  }

  ghost predicate OrderedThree<T>(less: (T, T) -> bool, s: seq<T>, l: int, i: int, u: int) {
    0 <= l <= i <= u < |s| && NotAfter(less, s[l], s[u]) &&
    (u - l > 1 ==> NotAfter(less, s[l], s[i]) && NotAfter(less, s[i], s[u]))
  }

  function Swapped<T>(s: seq<T>, i: int, j: int): seq<T>
    requires 0 <= i < |s| && 0 <= j < |s|
  {
    s[i := s[j]][j := s[i]]
  }

  lemma {:induction false} EndsOrdered<T(!new)>(less: (T, T) -> bool, s: seq<T>, t: seq<T>, l: int, u: int, yes: bool)
    requires StrictWeak(less) && 0 <= l < u < |s| && yes == less(s[u], s[l])
    requires t == if yes then Swapped(s, l, u) else s
    ensures u - l == 1 ==> OrderedThree(less, t, l, (l + u) / 2, u)
    ensures NotAfter(less, t[l], t[u])
  {
  }

  lemma {:induction false} MiddleOrdered<T(!new)>(less: (T, T) -> bool, s: seq<T>, t: seq<T>, l: int, i: int, u: int,
                                                  first: bool, second: bool)
    requires StrictWeak(less) && 0 <= l < i < u < |s| && NotAfter(less, s[l], s[u]) && first == less(s[i], s[l])
    requires !first ==> second == less(s[u], s[i])
    requires t == if first then Swapped(s, l, i) else if second then Swapped(s, i, u) else s
    ensures OrderedThree(less, t, l, i, u)
  {
    assert NotAfter(less, s[l], s[u]);
    if first { assert NotAfter(less, s[i], s[l]); }
  }

  /** The two scans have passed all up to `i`, and all from `j`. */
  ghost predicate Parted<T>(less: (T, T) -> bool, s: seq<T>, p: T, l: int, i: int, j: int, u: int) {
    0 <= l <= i && j <= u < |s| && (forall k :: l <= k <= i <= u ==> NotAfter(less, s[k], p)) &&
    (forall k :: l <= j <= k <= u ==> NotAfter(less, p, s[k]))
  }

  lemma {:induction false} PartsStart<T(!new)>(less: (T, T) -> bool, s: seq<T>, t: seq<T>, l: int, i: int, u: int)
    requires StrictWeak(less) && OrderedThree(less, s, l, i, u) && i == (l + u) / 2 && u - l > 2 &&
      t == Swapped(s, i, u - 1)
    ensures Parted(less, t, s[i], l, l, u - 1, u) && t[u - 1] == s[i]
  {
  }

  lemma {:induction false} PartedMeans<T(!new)>(less: (T, T) -> bool, s: seq<T>, p: T, l: int, i: int, j: int, u: int)
    requires StrictWeak(less) && Parted(less, s, p, l, i, j, u) && i <= j <= u - 1 && s[u - 1] == p
    ensures !less(s[u - 1], p) && !less(p, s[l])
  {
  }

  lemma {:induction false} PartsMeet<T(!new)>(less: (T, T) -> bool, s: seq<T>, t: seq<T>, p: T, l: int, i0: int,
                                       j0: int,
                                              i: int, j: int, u: int)
    requires StrictWeak(less) && Parted(less, s, p, l, i0, j0, u) && l <= i0 < i < u && l <= j < j0 <= u - 1
    requires (forall k :: i0 < k < i ==> less(s[k], p)) && (forall k :: j < k < j0 ==> less(p, s[k]))
    requires NotAfter(less, p, s[i]) && NotAfter(less, s[j], p)
    ensures i <= j && t == Swapped(s, i, j) ==> Parted(less, t, p, l, i, j, u)
    ensures j < i && s[u - 1] == p && t == Swapped(s, u - 1, i) ==> Split(less, t, l, i, u)
  {
    if i <= j && t == Swapped(s, i, j) {
      forall k | l <= k <= i ensures NotAfter(less, t[k], p) { assert i0 < k < i ==> less(s[k], p); }
      forall k | j <= k <= u ensures NotAfter(less, p, t[k]) { assert j < k < j0 ==> less(p, s[k]); }
    }
    if j < i && s[u - 1] == p && t == Swapped(s, u - 1, i) {
      assert t[i] == p;
      forall k | l <= k < i ensures NotAfter(less, t[k], p) { assert i0 < k < i ==> less(s[k], p); }
      forall k | i < k <= u ensures NotAfter(less, p, t[k]) {
        assert j < k < j0 ==> less(p, s[k]);
      }
    }
  }

  /** What is outside of `l` to `u` is sorted, and on the right side of what is inside. */
  ghost predicate Outside<T>(less: (T, T) -> bool, s: seq<T>, l0: int, l: int, u: int, u0: int) {
    0 <= l0 <= l && u <= u0 < |s| &&
    forall i, j :: l0 <= i < j <= u0 && (i < l || u < j) ==> NotAfter(less, s[i], s[j])
  }

  lemma {:induction false} OutsideStart<T>(less: (T, T) -> bool, s: seq<T>, l: int, u: int)
    requires 0 <= l && u < |s|
    ensures Outside(less, s, l, l, u, u)
  {
  }

  lemma {:induction false} OutsideKept<T>(less: (T, T) -> bool, s: seq<T>, t: seq<T>, l0: int, l: int, u: int, u0: int)
    requires Outside(less, s, l0, l, u, u0) && Rearranged(s, t, l, u)
    ensures Outside(less, t, l0, l, u, u0)
  {
    forall i, j | l0 <= i < j <= u0 && (i < l || u < j) ensures NotAfter(less, t[i], t[j]) {
      if i < l <= j <= u {
        RearrangedAll(s, t, l, u, y => NotAfter(less, s[i], y));
      } else if l <= i <= u < j {
        RearrangedAll(s, t, l, u, x => NotAfter(less, x, s[j]));
      }
    }
  }

  /** Once one side of the pivot is sorted, only the other is left. */
  lemma {:induction false} OutsideGrows<T(!new)>(less: (T, T) -> bool, s: seq<T>, t: seq<T>, l0: int, l: int, i: int,
                                          u: int,
                                                 u0: int, left: bool)
    requires StrictWeak(less) && Outside(less, s, l0, l, u, u0) && Split(less, s, l, i, u)
    requires if left then Rearranged(s, t, l, i - 1) && SortedIn(less, t, l, i - 1)
             else Rearranged(s, t, i + 1, u) && SortedIn(less, t, i + 1, u)
    ensures if left then Outside(less, t, l0, i + 1, u, u0) else Outside(less, t, l0, l, i - 1, u0)
  {
    var a, b := if left then l else i + 1, if left then i - 1 else u;
    RearrangedWider(s, t, a, b, l, u);
    OutsideKept(less, s, t, l0, l, u, u0);
    if left {
      RearrangedAll(s, t, a, b, x => NotAfter(less, x, s[i]));
    } else {
      RearrangedAll(s, t, a, b, x => NotAfter(less, s[i], x));
    }
    hide Rearranged;
    assert t[i] == s[i] && Split(less, t, l, i, u);
    SplitApart(less, t, l, i, u);
  }

  lemma {:induction false} SplitApart<T(!new)>(less: (T, T) -> bool, s: seq<T>, l: int, i: int, u: int)
    requires StrictWeak(less) && Split(less, s, l, i, u)
    ensures forall j, k :: l <= j <= i <= k <= u && j < k ==> NotAfter(less, s[j], s[k])
  {
  }

  lemma {:induction false} OutsideSorted<T>(less: (T, T) -> bool, s: seq<T>, l0: int, l: int, u: int, u0: int)
    requires Outside(less, s, l0, l, u, u0) && l >= u
    ensures SortedIn(less, s, l0, u0)
  {
  }

  lemma {:induction false} FewSorted<T>(less: (T, T) -> bool, s: seq<T>, l0: int, l: int, i: int, u: int, u0: int)
    requires Outside(less, s, l0, l, u, u0) && OrderedThree(less, s, l, i, u) && i == (l + u) / 2 && u - l <= 2
    ensures SortedIn(less, s, l0, u0)
  {
  }

  class Table<T(!new)> {
    const slots: array<T>
    const lt: (nat, T, T) -> Answer
    var calls: nat

    constructor (slots: array<T>, lt: (nat, T, T) -> Answer)
      ensures this.slots == slots && this.lt == lt
    {
      this.slots, this.lt, calls := slots, lt, 0;
    }

    /** sort_comp, for a comparison that leaves the table alone. */
    method Compare(x: T, y: T) returns (a: Answer)
      modifies this`calls
      ensures a == lt(old(calls), x, y)
    {
      a := lt(calls, x, y);
      calls := calls + 1;
    }

    method Swap(i: int, j: int, ghost l: int, ghost u: int)
      requires 0 <= l <= i <= u < slots.Length && l <= j <= u
      modifies slots
      ensures slots[..] == old(slots[..])[i := old(slots[j])][j := old(slots[i])]
      ensures Rearranged(old(slots[..]), slots[..], l, u)
    {
      SwapRearranges(slots[..], i, j, l, u);
      slots[i], slots[j] := slots[j], slots[i];
    }

    /** Two elements are put in order. */
    method OrderTwo(i: int, j: int, ghost l: int, ghost u: int) returns (a: Answer)
      requires 0 <= l <= i <= u < slots.Length && l <= j <= u
      modifies slots, this`calls
      ensures a == lt(old(calls), old(slots[j]), old(slots[i])) && Rearranged(old(slots[..]), slots[..], l, u)
      ensures slots[..] == if a.Yes? then old(slots[..])[i := old(slots[j])][j := old(slots[i])] else old(slots[..])
    {
      a := Compare(slots[j], slots[i]);
      if a.Yes? { Swap(i, j, l, u); }
    }

    /** The elements at `l`, in the middle and at `u` are put in order. */
    method OrderThree(l: int, u: int, ghost less: (T, T) -> bool, ghost proper: bool) returns (r: Outcome, i: int)
      requires 0 <= l < u < slots.Length && (proper ==> StrictWeak(less) && Answers(lt, less))
      modifies slots, this`calls
      ensures Rearranged(old(slots[..]), slots[..], l, u) && i == (l + u) / 2
      ensures r != InvalidOrder && (proper ==> r == Done && OrderedThree(less, slots[..], l, i, u))
    {
      hide Rearranged;
      i := (l + u) / 2;
      ghost var s := slots[..];
      var a := OrderTwo(l, u, l, u);
      if a.Raises? { return Raised, i; }
      ghost var t := slots[..];
      if proper { EndsOrdered(less, s, t, l, u, a == Yes); }
      if u - l == 1 { return Done, i; }
      a := OrderTwo(l, i, l, u);
      RearrangedTwice(s, t, slots[..], l, u);
      if a.Raises? { return Raised, i; }
      if a.No? {
        a := OrderTwo(i, u, l, u);
        RearrangedTwice(s, t, slots[..], l, u);
        if a.Raises? { return Raised, i; }
        if proper { MiddleOrdered(less, t, slots[..], l, i, u, false, a == Yes); }
      } else if proper {
        MiddleOrdered(less, t, slots[..], l, i, u, true, false);
      }
      r := Done;
    }

    /** From `i` up to an element that is not before the pivot. */
    method ScanUp(p: T, start: int, u: int, ghost less: (T, T) -> bool, ghost proper: bool) returns (r: Outcome, i: int)
      requires 0 <= start < u < slots.Length &&
        (proper ==> Answers(lt, less) && !less(slots[u - 1], p) && start < u - 1)
      modifies this`calls
      ensures start <= i <= u && (r == Done ==> start < i) && (proper ==> r == Done && i < u)
      ensures r == Done && proper ==> (forall k :: start < k < i ==> less(slots[k], p)) && NotAfter(less, p, slots[i])
    {
      i := start + 1;
      var a := Compare(slots[i], p);
      while a.Yes?
        invariant start < i <= u
        invariant proper ==> (forall k :: start < k < i ==> less(slots[k], p)) && i < u
        invariant proper ==> a == if less(slots[i], p) then Yes else No
        decreases u - i
      {
        if i >= u { return InvalidOrder, i; }
        i := i + 1;
        a := Compare(slots[i], p);
      }
      r := if a.Raises? then Raised else Done;
    }

    /** From `j` down to an element that is not behind the pivot. */
    method ScanDown(p: T, start: int, l: int, ghost less: (T, T) -> bool, ghost proper: bool)
      returns (r: Outcome, j: int)
      requires 0 <= l < start < slots.Length && (proper ==> Answers(lt, less) && !less(p, slots[l]))
      modifies this`calls
      ensures l <= j <= start && (r == Done ==> j < start) && (proper ==> r == Done)
      ensures r == Done && proper ==> (forall k :: j < k < start ==> less(p, slots[k])) && NotAfter(less, slots[j], p)
    {
      j := start - 1;
      var a := Compare(p, slots[j]);
      while a.Yes?
        invariant l <= j < start
        invariant proper ==> forall k :: j < k < start ==> less(p, slots[k])
        invariant proper ==> a == if less(p, slots[j]) then Yes else No
        decreases j
      {
        if j <= l { return InvalidOrder, j; }
        j := j - 1;
        a := Compare(p, slots[j]);
      }
      r := if a.Raises? then Raised else Done;
    }

    /** One turn of the loop that parts the elements: both scans, and a swap, which at the
        end puts the pivot into its place. */
    method Sweep(p: T, l: int, u: int, i0: int, j0: int, ghost less: (T, T) -> bool, ghost proper: bool)
      returns (r: Outcome, i: int, j: int)
      requires 0 <= l <= i0 <= j0 <= u - 1 && u < slots.Length && i0 < u - 1 && l < j0 && slots[u - 1] == p
      requires proper ==> StrictWeak(less) && Answers(lt, less) && Parted(less, slots[..], p, l, i0, j0, u)
      modifies slots, this`calls
      ensures Rearranged(old(slots[..]), slots[..], l, u) && (proper ==> r == Done)
      ensures r == Done ==> i0 < i <= u && l <= j < j0
      ensures r == Done && i <= j ==> slots[u - 1] == p && (proper ==> Parted(less, slots[..], p, l, i, j, u))
      ensures r == Done && j < i && proper ==> Split(less, slots[..], l, i, u)
    {
      hide Rearranged, Parted, Split, StrictWeak, Answers, NotAfter;
      ghost var t := slots[..];
      SameRearranged(t, l, u);
      j := j0;
      if proper { PartedMeans(less, t, p, l, i0, j0, u); }
      r, i := ScanUp(p, i0, u, less, proper);
      if r != Done { return; }
      r, j := ScanDown(p, j0, l, less, proper);
      if r != Done { return; }
      if j < i { Swap(u - 1, i, l, u); } else { Swap(i, j, l, u); }
      if proper { PartsMeet(less, t, slots[..], p, l, i0, j0, i, j, u); }
    }

    /** Parts the elements around a pivot, which ends at `i`. */
    method Partition(l: int, u: int, middle: int, ghost less: (T, T) -> bool, ghost proper: bool)
      returns (r: Outcome, i: int)
      requires 0 <= l && u < slots.Length && u - l > 2 && middle == (l + u) / 2
      requires proper ==> StrictWeak(less) && Answers(lt, less) && OrderedThree(less, slots[..], l, middle, u)
      modifies slots, this`calls
      ensures Rearranged(old(slots[..]), slots[..], l, u) && (r == Done ==> l < i <= u)
      ensures proper ==> r == Done && Split(less, slots[..], l, i, u)
    {
      hide Rearranged, Parted, Split, OrderedThree, StrictWeak, Answers;
      ghost var s := slots[..];
      var p := slots[middle];
      Swap(middle, u - 1, l, u);
      if proper { PartsStart(less, s, slots[..], l, middle, u); }
      i := l;
      var j := u - 1;
      while true
        invariant l <= i <= j <= u - 1 && i < u - 1 && l < j && Rearranged(s, slots[..], l, u)
        invariant slots[u - 1] == p && (proper ==> Parted(less, slots[..], p, l, i, j, u))
        decreases j
      {
        ghost var t := slots[..];
        r, i, j := Sweep(p, l, u, i, j, less, proper);
        RearrangedTwice(s, t, slots[..], l, u);
        if r != Done || j < i { return; }
      }
    }

    /** auxsort. Whatever the comparison answers, it ends, and leaves the elements from `l`
        to `u` in some order and all others alone. Without an error of the comparison's
        own, a strict weak order is never called invalid, and the elements are sorted.
        Calls nest only as deep as the number of elements has bits. */
    method Sort(l0: int, u0: int, ghost less: (T, T) -> bool, ghost proper: bool) returns (r: Outcome, ghost depth: nat)
      requires 0 <= l0 <= u0 + 1 <= slots.Length && (proper ==> StrictWeak(less) && Answers(lt, less))
      modifies slots, this`calls
      ensures Rearranged(old(slots[..]), slots[..], l0, u0)
      ensures proper ==> r == Done && SortedIn(less, slots[..], l0, u0)
      ensures Pow2(depth) <= Max(u0 - l0 + 1, 1)
      decreases u0 - l0
    {
      hide Rearranged, Split, OrderedThree, StrictWeak, Answers, SortedIn, Outside;
      var l, u := l0, u0;
      ghost var s := slots[..];
      r, depth := Done, 0;
      SameRearranged(s, l0, u0);
      OutsideStart(less, s, l0, u0);
      while l < u
        invariant l0 <= l <= u + 1 && u <= u0 && r == Done && Pow2(depth) <= Max(u0 - l0 + 1, 1)
        invariant Rearranged(s, slots[..], l0, u0) && (proper ==> Outside(less, slots[..], l0, l, u, u0))
        decreases u - l
      {
        ghost var t := slots[..];
        var i;
        r, i := OrderThree(l, u, less, proper);
        if proper { OutsideKept(less, t, slots[..], l0, l, u, u0); }
        RearrangedWider(t, slots[..], l, u, l0, u0);
        RearrangedTwice(s, t, slots[..], l0, u0);
        if r != Done { return; }
        if u - l <= 2 {
          if proper { FewSorted(less, slots[..], l0, l, i, u, u0); }
          return;
        }
        t := slots[..];
        r, i := Partition(l, u, i, less, proper);
        if proper { OutsideKept(less, t, slots[..], l0, l, u, u0); }
        RearrangedWider(t, slots[..], l, u, l0, u0);
        RearrangedTwice(s, t, slots[..], l0, u0);
        if r != Done { return; }
        t := slots[..];
        ghost var lo, hi, pivot := l, u, i;
        var j, k;
        if i - l < u - i { j, k, l := l, i - 1, i + 1; } else { j, k, u := i + 1, u, i - 1; }
        ghost var inner: nat;
        r, inner := Sort(j, k, less, proper);
        RearrangedWider(t, slots[..], j, k, l0, u0);
        RearrangedTwice(s, t, slots[..], l0, u0);
        if depth < inner + 1 { depth := inner + 1; }
        if r != Done { return; }
        if proper { OutsideGrows(less, t, slots[..], l0, lo, pivot, hi, u0, j == lo); }
      }
      if proper { OutsideSorted(less, slots[..], l0, l, u, u0); }
    }

    /** table.sort */
    method TableSort(ghost less: (T, T) -> bool, ghost proper: bool) returns (r: Outcome)
      requires proper ==> StrictWeak(less) && Answers(lt, less)
      modifies slots, this`calls
      ensures multiset(slots[..]) == multiset(old(slots[..]))
      ensures proper ==> r == Done && SortedIn(less, slots[..], 0, slots.Length - 1)
    {
      ghost var depth, s := 0, slots[..];
      r, depth := Sort(0, slots.Length - 1, less, proper);
      assert s[0..slots.Length] == s && slots[..][0..slots.Length] == slots[..];
    }
  }
}
