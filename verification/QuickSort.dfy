/** qsort.c: the three-way quicksort that parks keys equal to the pivot at both
    ends and swaps them to the middle afterwards. */
module QuickSort {

  type Compare<!T> = (T, T) -> int

  /** What qsort asks of its comparator: a total preorder, told by the sign. */
  ghost predicate TotalPreorder<T(!new)>(cmp: Compare<T>) {
    && (forall x, y :: cmp(x, y) < 0 <==> cmp(y, x) > 0)
    && (forall x, y, z :: cmp(x, y) <= 0 && cmp(y, z) <= 0 ==> cmp(x, z) <= 0)
  }

  /** Below, at or above the pivot. */
  function Side<T>(cmp: Compare<T>, v: T, x: T): int {
    if cmp(x, v) < 0 then -1 else if cmp(v, x) < 0 then 1 else 0
  }

  ghost predicate All<T>(s: seq<T>, cmp: Compare<T>, v: T, lo: int, hi: int, side: int)
    requires 0 <= lo && hi <= |s|
  {
    forall t :: lo <= t < hi ==> Side(cmp, v, s[t]) == side
  }

  ghost predicate SortedRange<T>(s: seq<T>, cmp: Compare<T>, lo: int, hi: int)
    requires 0 <= lo && hi <= |s|
  {
    forall x, y :: lo <= x < y < hi ==> cmp(s[x], s[y]) <= 0
  }

  ghost predicate SameOutside<T>(s: seq<T>, s': seq<T>, lo: int, hi: int) {
    |s| == |s'| && forall t :: 0 <= t < |s| && !(lo <= t < hi) ==> s'[t] == s[t]
  }

  method Exch<T>(a: array<T>, x: int, y: int)
    requires 0 <= x < a.Length && 0 <= y < a.Length
    modifies a
    ensures a[..] == old(a[..])[x := old(a[y])][y := old(a[x])]
    ensures multiset(a[..]) == multiset(old(a[..]))
  {
    var z := a[x];
    a[x] := a[y];
    a[y] := z;
  }

  lemma SideFacts<T(!new)>(cmp: Compare<T>, v: T, x: T)
    requires TotalPreorder(cmp)
    ensures cmp(x, v) < 0 <==> Side(cmp, v, x) == -1
    ensures cmp(v, x) < 0 <==> Side(cmp, v, x) == 1
    ensures cmp(x, v) == 0 <==> Side(cmp, v, x) == 0
    ensures cmp(v, x) == 0 <==> Side(cmp, v, x) == 0
  {
    assert cmp(v, x) < 0 <==> cmp(x, v) > 0;
    assert cmp(x, v) < 0 <==> cmp(v, x) > 0;
  }

  /** The four zones: keys equal to the pivot in `l..p` and `q..r-1`, smaller ones in
      `p+1..i-1`, greater ones in `j+1..q-1`. */
  ghost predicate Zones<T>(s: seq<T>, cmp: Compare<T>, l: int, r: int, p: int, i: int, j: int, q: int) {
    && 0 <= l <= r < |s| && l - 1 <= p < i <= q && p <= j < q <= r && l - 1 <= j
    && All(s, cmp, s[r], l, p + 1, 0) && All(s, cmp, s[r], p + 1, i, -1)
    && All(s, cmp, s[r], j + 1, q, 1) && All(s, cmp, s[r], q, r, 0)
  }

  /** The partition loop: on return `i` and `j` have met. */
  method Partition<T(!new)>(a: array<T>, l: int, r: int, cmp: Compare<T>)
    returns (p: int, i: int, j: int, q: int)
    requires TotalPreorder(cmp) && 0 <= l < r < a.Length
    modifies a
    ensures Zones(a[..], cmp, l, r, p, i, j, q) && l <= j <= i <= r
    ensures i < r ==> Side(cmp, a[r], a[i]) >= 0
    ensures Side(cmp, a[r], a[j]) > 0 ==> j == l
    ensures multiset(a[..]) == multiset(old(a[..])) && SameOutside(old(a[..]), a[..], l, r)
  {
    i, j, p, q := l - 1, r, l - 1, r;
    assert Zones(a[..], cmp, l, r, p, i + 1, j - 1, q);
    hide TotalPreorder, All, Side;
    while true
      invariant l - 1 <= p <= i < j <= q <= r && l < j
      invariant Zones(a[..], cmp, l, r, p, i + 1, j - 1, q)
      invariant multiset(a[..]) == multiset(old(a[..])) && SameOutside(old(a[..]), a[..], l, r)
      decreases j - i
    {
      i, j := ScanBoth(a, l, r, p, i, j, q, cmp);
      if i >= j {
        return;
      }
      p, q := SwapAndPark(a, l, r, p, i, j, q, cmp);
    }
  }

  /** The rest of the loop body: the two keys change sides, and those equal to the
      pivot go on to the ends. */
  method SwapAndPark<T(!new)>(a: array<T>, l: int, r: int, p: int, i: int, j: int, q: int, cmp: Compare<T>)
    returns (p': int, q': int)
    requires TotalPreorder(cmp) && r < a.Length && l <= i < j < r && Zones(a[..], cmp, l, r, p, i, j, q)
    requires Side(cmp, a[r], a[i]) >= 0 && Side(cmp, a[r], a[j]) <= 0
    modifies a
    ensures Zones(a[..], cmp, l, r, p', i + 1, j - 1, q') && p' <= i && j <= q' <= r
    ensures multiset(a[..]) == multiset(old(a[..])) && SameOutside(old(a[..]), a[..], l, r)
  {
    Exch(a, i, j);
    p' := ParkLeft(a, l, r, p, i, j, q, cmp);
    q' := ParkRight(a, l, r, p', i, j, q, cmp);
  }

  /** A key just moved to the left side goes to the far left if it equals the pivot. */
  method ParkLeft<T(!new)>(a: array<T>, l: int, r: int, p: int, i: int, j: int, q: int, cmp: Compare<T>)
    returns (p': int)
    requires TotalPreorder(cmp) && r < a.Length && l <= i < j < r && Zones(a[..], cmp, l, r, p, i, j, q)
    requires Side(cmp, a[r], a[i]) <= 0
    modifies a
    ensures Zones(a[..], cmp, l, r, p', i + 1, j, q) && p' <= i
    ensures a[r] == old(a[r]) && a[j] == old(a[j])
    ensures multiset(a[..]) == multiset(old(a[..])) && SameOutside(old(a[..]), a[..], l, r)
  {
    SideFacts(cmp, a[r], a[i]);
    hide TotalPreorder;
    p' := p;
    if cmp(a[i], a[r]) == 0 {
      p' := p' + 1;
      Exch(a, p', i);
    }
  }

  method ParkRight<T(!new)>(a: array<T>, l: int, r: int, p: int, i: int, j: int, q: int, cmp: Compare<T>)
    returns (q': int)
    requires TotalPreorder(cmp) && r < a.Length && l <= i < j < r && Zones(a[..], cmp, l, r, p, i + 1, j, q) && p <= i
    requires Side(cmp, a[r], a[j]) >= 0
    modifies a
    ensures Zones(a[..], cmp, l, r, p, i + 1, j - 1, q') && j <= q' <= r
    ensures multiset(a[..]) == multiset(old(a[..])) && SameOutside(old(a[..]), a[..], l, r)
  {
    SideFacts(cmp, a[r], a[j]);
    hide TotalPreorder;
    q' := q;
    if cmp(a[r], a[j]) == 0 {
      q' := q' - 1;
      Exch(a, j, q');
    }
  }

  method ScanBoth<T(!new)>(a: array<T>, l: int, r: int, p: int, i0: int, j0: int, q: int, cmp: Compare<T>)
    returns (i: int, j: int)
    requires TotalPreorder(cmp) && 0 <= l < r < a.Length && l - 1 <= p <= i0 < j0 <= q <= r && l < j0
    requires Zones(a[..], cmp, l, r, p, i0 + 1, j0 - 1, q)
    ensures i0 < i <= r && l <= j < j0 && Zones(a[..], cmp, l, r, p, i, j, q)
    ensures i < r ==> Side(cmp, a[r], a[i]) >= 0
    ensures Side(cmp, a[r], a[j]) > 0 ==> j == l
  {
    i := ScanUp(a, i0, r, cmp);
    j := ScanDown(a, j0, l, r, cmp);
    assert j0 < r ==> Side(cmp, a[r], a[j0]) >= 0;
    assert i0 >= l ==> Side(cmp, a[r], a[i0]) <= 0;
  }

  /** The first scan: up to the first key not below the pivot, or to the pivot itself. */
  method ScanUp<T(!new)>(a: array<T>, i0: int, r: int, cmp: Compare<T>) returns (i: int)
    requires TotalPreorder(cmp) && -1 <= i0 < r < a.Length
    ensures i0 < i <= r && All(a[..], cmp, a[r], i0 + 1, i, -1)
    ensures i < r ==> Side(cmp, a[r], a[i]) >= 0
  {
    i := i0 + 1;
    while i != r && cmp(a[i], a[r]) < 0
      invariant i0 < i <= r && All(a[..], cmp, a[r], i0 + 1, i, -1)
    {
      i := i + 1;
    }
  }

  /** The second scan: down to the first key not above the pivot, or to `l`. */
  method ScanDown<T(!new)>(a: array<T>, j0: int, l: int, r: int, cmp: Compare<T>) returns (j: int)
    requires TotalPreorder(cmp) && 0 <= l < j0 <= r < a.Length
    ensures l <= j < j0 && All(a[..], cmp, a[r], j + 1, j0, 1)
    ensures Side(cmp, a[r], a[j]) > 0 ==> j == l
  {
    j := j0 - 1;
    while cmp(a[r], a[j]) < 0
      invariant l <= j < j0 && All(a[..], cmp, a[r], j + 1, j0, 1)
      decreases j
    {
      if j == l { break; }
      j := j - 1;
    }
  }

  ghost predicate AtMost<T>(s: seq<T>, cmp: Compare<T>, v: T, lo: int, hi: int)
    requires 0 <= lo && hi <= |s|
  {
    forall t :: lo <= t < hi ==> Side(cmp, v, s[t]) <= 0
  }

  ghost predicate AtLeast<T>(s: seq<T>, cmp: Compare<T>, v: T, lo: int, hi: int)
    requires 0 <= lo && hi <= |s|
  {
    forall t :: lo <= t < hi ==> Side(cmp, v, s[t]) >= 0
  }

  function Min(x: int, y: int): int { if x < y then x else y }

  function Max(x: int, y: int): int { if x < y then y else x }

  /** The keys equal to the pivot in `l..p` go next to it. One of them stays behind. */
  method GatherLeft<T(!new)>(a: array<T>, l: int, p: int, i: int, ghost v: T, ghost cmp: Compare<T>) returns (j: int)
    requires 0 <= l && l - 1 <= p < i < a.Length
    requires All(a[..], cmp, v, l, p + 1, 0) && All(a[..], cmp, v, p + 1, i, -1)
    modifies a
    ensures l - 1 <= j < i && AtMost(a[..], cmp, v, l, j + 1) && All(a[..], cmp, v, j + 1, i, 0)
    ensures multiset(a[..]) == multiset(old(a[..])) && SameOutside(old(a[..]), a[..], l, i)
  {
    j := i - 1;
    var k := l;
    ghost var m := i - 1 - p;
    while k < p
      invariant l <= k <= Max(l, p) && j == i - 1 - (k - l)
      invariant AtMost(a[..], cmp, v, l, i)
      invariant forall t :: l + Min(k - l, m) <= t < i && !(p < t <= j) ==> Side(cmp, v, a[t]) == 0
      invariant multiset(a[..]) == multiset(old(a[..])) && SameOutside(old(a[..]), a[..], l, i)
    {
      Exch(a, k, j);
      k := k + 1;
      j := j - 1;
    }
  }

  /** The same on the right, for the keys in `q..r-1`. */
  method GatherRight<T(!new)>(a: array<T>, i: int, q: int, r: int, ghost v: T, ghost cmp: Compare<T>) returns (i': int)
    requires 0 <= i <= q <= r < a.Length && i <= r
    requires All(a[..], cmp, v, i + 1, q, 1) && All(a[..], cmp, v, q, r, 0)
    modifies a
    ensures i < i' <= Max(r, i + 1) && All(a[..], cmp, v, i + 1, i', 0) && AtLeast(a[..], cmp, v, i', r)
    ensures multiset(a[..]) == multiset(old(a[..])) && SameOutside(old(a[..]), a[..], i + 1, r)
  {
    i' := i + 1;
    var k := r - 1;
    ghost var m := Max(0, q - i - 1);
    while k > q
      invariant Min(r - 1, q) <= k <= r - 1 && i' == i + 1 + (r - 1 - k)
      invariant AtLeast(a[..], cmp, v, i + 1, r)
      invariant forall t :: i < t <= r - 1 - Min(r - 1 - k, m) && !(i' <= t < q) ==> Side(cmp, v, a[t]) == 0
      invariant multiset(a[..]) == multiset(old(a[..])) && SameOutside(old(a[..]), a[..], i + 1, r)
    {
      Exch(a, i', k);
      k := k - 1;
      i' := i' + 1;
    }
  }

  /** One level of quicksort: everything between the two returned positions equals
      the pivot, the left part is at most it, the right part at least it. */
  method Split<T(!new)>(a: array<T>, l: int, r: int, cmp: Compare<T>) returns (j: int, i: int, ghost v: T)
    requires TotalPreorder(cmp) && 0 <= l < r < a.Length
    modifies a
    ensures v == old(a[r]) && l - 1 <= j < r && l < i <= r + 1 && j < i
    ensures AtMost(a[..], cmp, v, l, j + 1) && All(a[..], cmp, v, j + 1, i, 0) && AtLeast(a[..], cmp, v, i, r + 1)
    ensures multiset(a[..]) == multiset(old(a[..])) && SameOutside(old(a[..]), a[..], l, r + 1)
  {
    v := a[r];
    SideSelf(cmp, v);
    ghost var start := a[..];
    var p, i0, j0, q := Partition(a, l, r, cmp);
    MeetFacts(a[..], cmp, l, r, p, i0, j0, q);
    hide TotalPreorder, Side, Zones, All, AtMost, AtLeast, SameOutside;
    ghost var s0 := a[..];
    Exch(a, i0, r);
    PivotPlaced(s0, a[..], cmp, v, l, p, i0, q, r);
    ghost var s1 := a[..];
    j := GatherLeft(a, l, p, i0, v, cmp);
    RightKept(s1, a[..], cmp, v, l, i0, q, r);
    ghost var s2 := a[..];
    i := GatherRight(a, i0, q, r, v, cmp);
    SplitDone(s2, a[..], cmp, v, l, j, i0, i, r);
    OutsideChain(start, s0, s1, s2, a[..], l, i0, r);
  }

  lemma OutsideChain<T>(s: seq<T>, s0: seq<T>, s1: seq<T>, s2: seq<T>, s3: seq<T>, l: int, i: int, r: int)
    requires 0 <= l <= i <= r < |s| && SameOutside(s, s0, l, r)
    requires s1 == s0[i := s0[r]][r := s0[i]]
    requires SameOutside(s1, s2, l, i) && SameOutside(s2, s3, i + 1, r)
    ensures SameOutside(s, s3, l, r + 1)
  {
  }

  lemma PivotPlaced<T>(s: seq<T>, s': seq<T>, cmp: Compare<T>, v: T, l: int, p: int, i: int, q: int, r: int)
    requires 0 <= l && l - 1 <= p < i <= q <= r < |s| && Side(cmp, v, v) == 0 && s[r] == v
    requires All(s, cmp, v, l, p + 1, 0) && All(s, cmp, v, p + 1, i, -1)
    requires All(s, cmp, v, i + 1, q, 1) && All(s, cmp, v, q, r, 0) && (i < r ==> Side(cmp, v, s[i]) >= 0)
    requires s' == s[i := s[r]][r := s[i]]
    ensures All(s', cmp, v, l, p + 1, 0) && All(s', cmp, v, p + 1, i, -1)
    ensures All(s', cmp, v, i + 1, q, 1) && All(s', cmp, v, q, r, 0)
    ensures Side(cmp, v, s'[i]) == 0 && Side(cmp, v, s'[r]) >= 0
  {
    hide Side;
  }

  lemma RightKept<T>(s: seq<T>, s': seq<T>, cmp: Compare<T>, v: T, l: int, i: int, q: int, r: int)
    requires 0 <= l <= i <= q <= r < |s| && SameOutside(s, s', l, i)
    requires All(s, cmp, v, i + 1, q, 1) && All(s, cmp, v, q, r, 0)
    requires Side(cmp, v, s[i]) == 0 && Side(cmp, v, s[r]) >= 0
    ensures All(s', cmp, v, i + 1, q, 1) && All(s', cmp, v, q, r, 0)
    ensures Side(cmp, v, s'[i]) == 0 && Side(cmp, v, s'[r]) >= 0
  {
    hide Side;
  }

  lemma SplitDone<T>(s: seq<T>, s': seq<T>, cmp: Compare<T>, v: T, l: int, j: int, i0: int, i: int, r: int)
    requires 0 <= l && l - 1 <= j < i0 < i <= Max(r, i0 + 1) && i0 <= r < |s| && SameOutside(s, s', i0 + 1, r)
    requires AtMost(s, cmp, v, l, j + 1) && All(s, cmp, v, j + 1, i0, 0)
    requires Side(cmp, v, s[i0]) == 0 && Side(cmp, v, s[r]) >= 0
    requires All(s', cmp, v, i0 + 1, i, 0) && AtLeast(s', cmp, v, i, r)
    ensures AtMost(s', cmp, v, l, j + 1) && All(s', cmp, v, j + 1, i, 0) && AtLeast(s', cmp, v, i, r + 1)
  {
    hide Side;
  }

  lemma SideSelf<T(!new)>(cmp: Compare<T>, v: T)
    requires TotalPreorder(cmp)
    ensures Side(cmp, v, v) == 0
  {
    assert cmp(v, v) < 0 <==> cmp(v, v) > 0;
  }

  lemma MeetFacts<T>(s: seq<T>, cmp: Compare<T>, l: int, r: int, p: int, i: int, j: int, q: int)
    requires Zones(s, cmp, l, r, p, i, j, q) && j <= i <= r
    requires i < r ==> Side(cmp, s[r], s[i]) >= 0
    ensures All(s, cmp, s[r], i + 1, q, 1) && l - 1 <= p < i <= q <= r < |s|
    ensures All(s, cmp, s[r], l, p + 1, 0) && All(s, cmp, s[r], p + 1, i, -1) && All(s, cmp, s[r], q, r, 0)
  {
    hide Side;
  }

  /** Any two keys on their proper sides of the pivot are in order. */
  lemma SidesOrder<T(!new)>(cmp: Compare<T>, v: T, x: T, y: T)
    requires TotalPreorder(cmp) && Side(cmp, v, x) <= 0 <= Side(cmp, v, y)
    ensures cmp(x, y) <= 0
  {
    SideFacts(cmp, v, x);
    SideFacts(cmp, v, y);
    assert cmp(v, y) < 0 <==> cmp(y, v) > 0;
    assert cmp(y, v) < 0 <==> cmp(v, y) > 0;
    assert cmp(x, v) <= 0 && cmp(v, y) <= 0;
  }

  /** A permutation that leaves everything outside a range in place permutes the range. */
  lemma RangePermutes<T>(s: seq<T>, s': seq<T>, lo: int, hi: int)
    requires 0 <= lo <= hi <= |s| && multiset(s) == multiset(s') && SameOutside(s, s', lo, hi)
    ensures multiset(s[lo..hi]) == multiset(s'[lo..hi])
  {
    Parts(s, lo, hi);
    Parts(s', lo, hi);
    assert s[..lo] == s'[..lo] && s[hi..] == s'[hi..];
    Cancel(multiset(s[..lo]) + multiset(s[hi..]), multiset(s[lo..hi]), multiset(s'[lo..hi]));
  }

  lemma Parts<T>(s: seq<T>, lo: int, hi: int)
    requires 0 <= lo <= hi <= |s|
    ensures multiset(s) == multiset(s[..lo]) + multiset(s[hi..]) + multiset(s[lo..hi])
  {
    assert s == s[..hi] + s[hi..];
    assert s[..hi] == s[..lo] + s[lo..hi];
  }

  lemma Cancel<T>(b: multiset<T>, c: multiset<T>, d: multiset<T>)
    requires b + c == b + d
    ensures c == d
  {
    assert c == (b + c) - b;
    assert d == (b + d) - b;
  }

  lemma PermutedAt<T>(s: seq<T>, s': seq<T>, lo: int, hi: int, t: int) returns (u: int)
    requires 0 <= lo <= t < hi <= |s| && multiset(s) == multiset(s') && SameOutside(s, s', lo, hi)
    ensures lo <= u < hi && s[u] == s'[t]
  {
    RangePermutes(s, s', lo, hi);
    assert s'[lo..hi][t - lo] in multiset(s'[lo..hi]);
    assert s'[t] in s[lo..hi];
    var w :| 0 <= w < hi - lo && s[lo..hi][w] == s'[t];
    u := lo + w;
  }

  lemma AtMostPermutes<T>(s: seq<T>, s': seq<T>, cmp: Compare<T>, v: T, lo: int, hi: int)
    requires 0 <= lo <= hi <= |s| && multiset(s) == multiset(s') && SameOutside(s, s', lo, hi)
    requires AtMost(s, cmp, v, lo, hi)
    ensures AtMost(s', cmp, v, lo, hi)
  {
    forall t | lo <= t < hi ensures Side(cmp, v, s'[t]) <= 0 {
      var u := PermutedAt(s, s', lo, hi, t);
    }
  }

  lemma AtLeastPermutes<T>(s: seq<T>, s': seq<T>, cmp: Compare<T>, v: T, lo: int, hi: int)
    requires 0 <= lo <= hi <= |s| && multiset(s) == multiset(s') && SameOutside(s, s', lo, hi)
    requires AtLeast(s, cmp, v, lo, hi)
    ensures AtLeast(s', cmp, v, lo, hi)
  {
    forall t | lo <= t < hi ensures Side(cmp, v, s'[t]) >= 0 {
      var u := PermutedAt(s, s', lo, hi, t);
    }
  }

  /** Two sorted parts with pivot keys between them are sorted together. */
  lemma JoinSorted<T(!new)>(s: seq<T>, cmp: Compare<T>, v: T, l: int, j: int, i: int, r: int)
    requires TotalPreorder(cmp) && 0 <= l <= j + 1 <= i <= r + 1 <= |s|
    requires AtMost(s, cmp, v, l, j + 1) && All(s, cmp, v, j + 1, i, 0) && AtLeast(s, cmp, v, i, r + 1)
    requires SortedRange(s, cmp, l, j + 1) && SortedRange(s, cmp, i, r + 1)
    ensures SortedRange(s, cmp, l, r + 1)
  {
    forall x, y | l <= x < y < r + 1 ensures cmp(s[x], s[y]) <= 0 {
      if y > j && x < i {
        SidesOrder(cmp, v, s[x], s[y]);
      }
    }
  }

  /** quicksort */
  method QuickSort<T(!new)>(a: array<T>, l: int, r: int, cmp: Compare<T>)
    requires TotalPreorder(cmp) && 0 <= l && l - 1 <= r < a.Length
    modifies a
    ensures SortedRange(a[..], cmp, l, r + 1)
    ensures multiset(a[..]) == multiset(old(a[..])) && SameOutside(old(a[..]), a[..], l, r + 1)
    decreases r - l
  {
    if r <= l {
      return;
    }
    var j, i, v := Split(a, l, r, cmp);
    ghost var s0 := a[..];
    QuickSort(a, l, j, cmp);
    ghost var s1 := a[..];
    QuickSort(a, i, r, cmp);
    SortedParts(s0, s1, a[..], cmp, v, l, j, i, r);
  }

  lemma SortedParts<T(!new)>(s0: seq<T>, s1: seq<T>, s2: seq<T>, cmp: Compare<T>, v: T, l: int, j: int, i: int, r: int)
    requires TotalPreorder(cmp) && 0 <= l <= j + 1 <= i <= r + 1 <= |s0|
    requires AtMost(s0, cmp, v, l, j + 1) && All(s0, cmp, v, j + 1, i, 0) && AtLeast(s0, cmp, v, i, r + 1)
    requires multiset(s0) == multiset(s1) && SameOutside(s0, s1, l, j + 1) && SortedRange(s1, cmp, l, j + 1)
    requires multiset(s1) == multiset(s2) && SameOutside(s1, s2, i, r + 1) && SortedRange(s2, cmp, i, r + 1)
    ensures SortedRange(s2, cmp, l, r + 1) && SameOutside(s0, s2, l, r + 1)
  {
    hide TotalPreorder, Side;
    AtMostPermutes(s0, s1, cmp, v, l, j + 1);
    AtLeastFrame(s0, s1, cmp, v, i, r + 1);
    AtLeastPermutes(s1, s2, cmp, v, i, r + 1);
    JoinSorted(s2, cmp, v, l, j, i, r);
  }

  lemma AtLeastFrame<T>(s: seq<T>, s': seq<T>, cmp: Compare<T>, v: T, lo: int, hi: int)
    requires 0 <= lo && hi <= |s| == |s'| && AtLeast(s, cmp, v, lo, hi)
    requires forall t :: lo <= t < hi ==> s'[t] == s[t]
    ensures AtLeast(s', cmp, v, lo, hi)
  {
    hide Side;
  }

  const INT_LIMIT: int := 0x7FFF_FFFF

  /** qsort sorts, unless the count or the element size is too large for an int: then
      it does nothing. */
  method Sort<T(!new)>(a: array<T>, size: nat, cmp: Compare<T>)
    requires TotalPreorder(cmp)
    modifies a
    ensures multiset(a[..]) == multiset(old(a[..]))
    ensures a.Length < INT_LIMIT && size < INT_LIMIT ==> SortedRange(a[..], cmp, 0, a.Length)
    ensures a.Length >= INT_LIMIT || size >= INT_LIMIT ==> a[..] == old(a[..])
  {
    if a.Length >= INT_LIMIT || size >= INT_LIMIT {
      return;
    }
    if a.Length > 1 {
      QuickSort(a, 0, a.Length - 1, cmp);
    }
  }
}
