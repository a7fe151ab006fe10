/** The quicksort of the C library, and what it does to equal keys. */
module Quicksort {
  /** A comparison as the caller of qsort provides it. */
  type Compare<!T> = (T, T) -> int

  /** Exchanging the arguments changes the sign. */
  ghost predicate Antisymmetric<T(!new)>(cmp: Compare<T>) {
    forall x, y :: cmp(x, y) < 0 <==> cmp(y, x) > 0
  }

  ghost predicate Transitive<T(!new)>(cmp: Compare<T>) {
    forall x, y, z :: cmp(x, y) <= 0 && cmp(y, z) <= 0 ==> cmp(x, z) <= 0
  }

  ghost predicate Ordering<T(!new)>(cmp: Compare<T>) {
    Antisymmetric(cmp) && Transitive(cmp)
  }

  predicate Sorted<T>(s: seq<T>, cmp: Compare<T>) {
    forall i, j :: 0 <= i < j < |s| ==> cmp(s[i], s[j]) <= 0
  }

  function Swap<T>(s: seq<T>, i: nat, j: nat): (t: seq<T>)
    requires i < |s| && j < |s|
    ensures |t| == |s|
  {
    s[i := s[j]][j := s[i]]
  }

  lemma SwapElements<T>(s: seq<T>, i: nat, j: nat)
    requires i < |s| && j < |s|
    ensures multiset(Swap(s, i, j)) == multiset(s)
  {
  }

  /** Where the element at `x` was before an exchange. */
  function Moved(i: nat, j: nat, x: nat): nat {
    if x == i then j else if x == j then i else x
  }

  lemma SwapMoves<T>(s: seq<T>, i: nat, j: nat, x: nat)
    requires i < |s| && j < |s| && x < |s|
    ensures Moved(i, j, x) < |s| && Swap(s, i, j)[Moved(i, j, x)] == s[x]
  {
  }

  /** The scan of a partition: elements below the pivot, which is the last, are
      moved to position `i`, which an element equal to the pivot advances, too. */
  function Scan<T>(s: seq<T>, i: nat, j: nat, cmp: Compare<T>): (r: (seq<T>, nat))
    requires i <= j < |s|
    ensures |r.0| == |s| && i <= r.1 < |s|
    decreases |s| - j
  {
    if j == |s| - 1 then (s, i)
    else
      var c := cmp(s[j], s[|s| - 1]);
      if c < 0 then Scan(Swap(s, i, j), i + 1, j + 1, cmp)
      else if c == 0 then Scan(s, i + 1, j + 1, cmp)
      else Scan(s, i, j + 1, cmp)
  }

  function Partition<T>(s: seq<T>, cmp: Compare<T>): (r: (seq<T>, nat))
    requires s != []
    ensures |r.0| == |s| && r.1 < |s|
  {
    var (t, i) := Scan(s, 0, 0, cmp);
    (if cmp(t[|t| - 1], t[i]) < 0 then Swap(t, i, |t| - 1) else t, i)
  }

  /** The first element is above the last. */
  predicate Falls<T>(s: seq<T>, cmp: Compare<T>) {
    s != [] && cmp(s[|s| - 1], s[0]) < 0
  }

  function Rank<T>(s: seq<T>, cmp: Compare<T>): (r: nat)
    ensures r <= 1
  {
    if Falls(s, cmp) then 1 else 0
  }

  lemma {:induction false} ScanKeeps<T>(s: seq<T>, i: nat, j: nat, cmp: Compare<T>)
    requires i <= j < |s|
    ensures multiset(Scan(s, i, j, cmp).0) == multiset(s)
    ensures Scan(s, i, j, cmp).0[|s| - 1] == s[|s| - 1]
    decreases |s| - j
  {
    hide Swap;
    if j < |s| - 1 {
      var c := cmp(s[j], s[|s| - 1]);
      if c < 0 {
        SwapElements(s, i, j);
        SwapMoves(s, i, j, |s| - 1);
        ScanKeeps(Swap(s, i, j), i + 1, j + 1, cmp);
      } else if c == 0 {
        ScanKeeps(s, i + 1, j + 1, cmp);
      } else {
        ScanKeeps(s, i, j + 1, cmp);
      }
    }
  }

  /** What is to the left stays. */
  lemma {:induction false} ScanLeft<T>(s: seq<T>, i: nat, j: nat, cmp: Compare<T>, x: nat)
    requires x < i <= j < |s|
    ensures Scan(s, i, j, cmp).0[x] == s[x]
    decreases |s| - j
  {
    if j < |s| - 1 {
      var c := cmp(s[j], s[|s| - 1]);
      if c < 0 {
        ScanLeft(Swap(s, i, j), i + 1, j + 1, cmp, x);
      } else if c == 0 {
        ScanLeft(s, i + 1, j + 1, cmp, x);
      } else {
        ScanLeft(s, i, j + 1, cmp, x);
      }
    }
  }

  /** A partition may put nothing to the left; then nothing was moved but the
      pivot, to the front. */
  lemma {:induction false} NothingLeft<T>(s: seq<T>, j: nat, cmp: Compare<T>)
    requires j < |s| && Scan(s, 0, j, cmp).1 == 0
    ensures Scan(s, 0, j, cmp).0 == s
    ensures forall k :: j <= k < |s| - 1 ==> cmp(s[k], s[|s| - 1]) > 0
    decreases |s| - j
  {
    if j < |s| - 1 {
      if cmp(s[j], s[|s| - 1]) > 0 {
        NothingLeft(s, j + 1, cmp);
      }
    }
  }

  lemma PartitionShrinks<T(!new)>(s: seq<T>, cmp: Compare<T>)
    requires |s| > 1 && Antisymmetric(cmp)
    ensures
      var (t, p) := Partition(s, cmp);
      p == 0 ==> Rank(t, cmp) < Rank(s, cmp)
  {
    if Partition(s, cmp).1 == 0 {
      NothingLeft(s, 0, cmp);
      assert cmp(s[0], s[|s| - 1]) > 0;
    }
  }

  /** What qsort makes of a range.  The recursion need not shrink the range,
      but does so at the next turn. */
  ghost function Sort<T(!new)>(s: seq<T>, cmp: Compare<T>): (r: seq<T>)
    requires Antisymmetric(cmp)
    ensures |r| == |s|
    decreases |s|, Rank(s, cmp)
  {
    if |s| <= 1 then s
    else
      var (t, p) := Partition(s, cmp);
      PartitionShrinks(s, cmp);
      assert p == 0 ==> t[p..] == t;
      Sort(t[..p], cmp) + Sort(t[p..], cmp)
  }

  /** An element above the pivot in front of one that equals it: there the
      partition strands the first on the wrong side. */
  ghost predicate Strands<T>(s: seq<T>, cmp: Compare<T>) {
    exists k, m :: 0 <= k < m < |s| - 1 && cmp(s[k], s[|s| - 1]) > 0 && cmp(s[m], s[|s| - 1]) == 0
  }

  /** No partition on the way strands an element. */
  ghost predicate NeverStrands<T(!new)>(s: seq<T>, cmp: Compare<T>)
    requires Antisymmetric(cmp)
    decreases |s|, Rank(s, cmp)
  {
    |s| <= 1 ||
    (!Strands(s, cmp) &&
     var (t, p) := Partition(s, cmp);
     PartitionShrinks(s, cmp);
     assert p == 0 ==> t[p..] == t;
     NeverStrands(t[..p], cmp) && NeverStrands(t[p..], cmp))
  }

  lemma PartitionElements<T>(s: seq<T>, cmp: Compare<T>)
    requires s != []
    ensures
      var (t, p) := Partition(s, cmp);
      multiset(t) == multiset(s) && multiset(t[..p]) + multiset(t[p..]) == multiset(s)
  {
    ScanKeeps(s, 0, 0, cmp);
    var (u, p) := Scan(s, 0, 0, cmp);
    SwapElements(u, p, |u| - 1);
    var t := Partition(s, cmp).0;
    assert t == t[..p] + t[p..];
  }

  lemma {:induction false} SortElements<T(!new)>(s: seq<T>, cmp: Compare<T>)
    requires Antisymmetric(cmp)
    ensures multiset(Sort(s, cmp)) == multiset(s)
    decreases |s|, Rank(s, cmp)
  {
    if |s| > 1 {
      var (t, p) := Partition(s, cmp);
      PartitionShrinks(s, cmp);
      assert p == 0 ==> t[p..] == t;
      PartitionElements(s, cmp);
      SortElements(t[..p], cmp);
      SortElements(t[p..], cmp);
    }
  }

  /** The state of a scan that has stranded nothing: not above the pivot up to
      `i`, above it from there to `j`. */
  ghost predicate Parted<T>(s: seq<T>, i: nat, j: nat, cmp: Compare<T>)
    requires i <= j < |s|
  {
    && (forall x :: 0 <= x < i ==> cmp(s[x], s[|s| - 1]) <= 0)
    && (forall x :: i <= x < j ==> cmp(s[x], s[|s| - 1]) > 0)
  }

  /** An element at `m` or behind it equals the pivot, and there is one above it
      in front. */
  ghost predicate WillStrand<T>(s: seq<T>, i: nat, j: nat, cmp: Compare<T>)
    requires i <= j < |s|
  {
    exists m :: j <= m < |s| - 1 && StrandsAt(s, i, j, cmp, m)
  }

  ghost predicate StrandsAt<T>(s: seq<T>, i: nat, j: nat, cmp: Compare<T>, m: nat)
    requires i <= j <= m < |s| - 1
  {
    cmp(s[m], s[|s| - 1]) == 0 && (i < j || exists k :: j <= k < m && cmp(s[k], s[|s| - 1]) > 0)
  }

  lemma SwapParted<T>(s: seq<T>, i: nat, j: nat, cmp: Compare<T>)
    requires i <= j < |s| - 1 && Parted(s, i, j, cmp) && cmp(s[j], s[|s| - 1]) < 0
    ensures Parted(Swap(s, i, j), i + 1, j + 1, cmp)
    ensures forall m :: j < m < |s| ==> Swap(s, i, j)[m] == s[m]
  {
  }

  lemma StrandsNow<T>(s: seq<T>, i: nat, j: nat, cmp: Compare<T>)
    requires i < j < |s| - 1 && cmp(s[j], s[|s| - 1]) == 0
    ensures WillStrand(s, i, j, cmp)
  {
    assert StrandsAt(s, i, j, cmp, j);
  }

  lemma NoMoreStrands<T>(s: seq<T>, i: nat, cmp: Compare<T>)
    requires i < |s|
    ensures !WillStrand(s, i, |s| - 1, cmp)
  {
  }

  /** A scan parts the elements exactly if it strands none. */
  lemma {:induction false} ScanParts<T>(s: seq<T>, i: nat, j: nat, cmp: Compare<T>)
    requires i <= j < |s| && Parted(s, i, j, cmp)
    ensures
      var (t, p) := Scan(s, i, j, cmp);
      if WillStrand(s, i, j, cmp) then exists x :: 0 <= x < p && cmp(t[x], s[|s| - 1]) > 0
      else Parted(t, p, |t| - 1, cmp)
    decreases |s| - j
  {
    hide Swap, WillStrand;
    var v := s[|s| - 1];
    ScanKeeps(s, i, j, cmp);
    NoMoreStrands(s, i, cmp);
    if j < |s| - 1 {
      var c := cmp(s[j], v);
      if c < 0 {
        var u := Swap(s, i, j);
        SwapParted(s, i, j, cmp);
        Shifted(s, i, j, cmp, u, i + 1);
        ScanParts(u, i + 1, j + 1, cmp);
      } else if c == 0 && i < j {
        StrandsNow(s, i, j, cmp);
        ScanLeft(s, i + 1, j + 1, cmp, i);
        assert cmp(Scan(s, i, j, cmp).0[i], v) > 0;
      } else if c == 0 {
        Shifted(s, i, j, cmp, s, i + 1);
        ScanParts(s, i + 1, j + 1, cmp);
      } else {
        Shifted(s, i, j, cmp, s, i);
        ScanParts(s, i, j + 1, cmp);
      }
    }
  }

  /** One step of the scan strands nothing new. */
  lemma Shifted<T>(s: seq<T>, i: nat, j: nat, cmp: Compare<T>, u: seq<T>, n: nat)
    requires i <= j < |s| - 1 && |u| == |s| && n <= j + 1
    requires forall m :: j < m < |s| ==> u[m] == s[m]
    requires (n < j + 1) == (i < j || cmp(s[j], s[|s| - 1]) > 0)
    requires i < j ==> cmp(s[j], s[|s| - 1]) != 0
    ensures WillStrand(s, i, j, cmp) <==> WillStrand(u, n, j + 1, cmp)
  {
    if WillStrand(s, i, j, cmp) {
      var m :| j <= m < |s| - 1 && StrandsAt(s, i, j, cmp, m);
      assert StrandsAt(u, n, j + 1, cmp, m);
    }
    if WillStrand(u, n, j + 1, cmp) {
      var m :| j + 1 <= m < |s| - 1 && StrandsAt(u, n, j + 1, cmp, m);
      assert StrandsAt(s, i, j, cmp, m);
    }
  }

  /** Nothing in `a` is above the pivot, which nothing in `b` is below. */
  ghost predicate Around<T(!new)>(a: seq<T>, v: T, b: seq<T>, cmp: Compare<T>) {
    && (forall x :: x in a ==> cmp(x, v) <= 0)
    && (forall y :: y in b ==> cmp(v, y) <= 0)
  }

  lemma PartitionParts<T(!new)>(s: seq<T>, cmp: Compare<T>)
    requires |s| > 1 && Antisymmetric(cmp)
    ensures
      var (t, p) := Partition(s, cmp);
      var v := s[|s| - 1];
      && v in t[p..]
      && if Strands(s, cmp) then exists x :: x in t[..p] && cmp(x, v) > 0
         else Around(t[..p], v, t[p..], cmp)
  {
    hide WillStrand, Strands, Scan;
    var v := s[|s| - 1];
    StrandsFromStart(s, cmp);
    ScanParts(s, 0, 0, cmp);
    ScanKeeps(s, 0, 0, cmp);
    var (u, p) := Scan(s, 0, 0, cmp);
    var t := Partition(s, cmp).0;
    assert v in t[p..] by {
      assert t[p..][if t[p] == v then 0 else |t| - 1 - p] == v;
    }
    if Strands(s, cmp) {
      var x :| 0 <= x < p && cmp(u[x], v) > 0;
      assert t[..p][x] == u[x];
    } else {
      assert forall x :: 0 <= x < p ==> t[x] == u[x];
      assert forall y :: p <= y < |t| ==> cmp(v, t[y]) <= 0;
    }
  }

  lemma StrandsFromStart<T>(s: seq<T>, cmp: Compare<T>)
    requires |s| > 1
    ensures Strands(s, cmp) <==> WillStrand(s, 0, 0, cmp)
  {
    if Strands(s, cmp) {
      var k, m :| 0 <= k < m < |s| - 1 && cmp(s[k], s[|s| - 1]) > 0 && cmp(s[m], s[|s| - 1]) == 0;
      assert StrandsAt(s, 0, 0, cmp, m);
    }
    if WillStrand(s, 0, 0, cmp) {
      var m :| 0 <= m < |s| - 1 && StrandsAt(s, 0, 0, cmp, m);
    }
  }

  lemma SameMembers<T>(a: seq<T>, b: seq<T>)
    requires multiset(a) == multiset(b)
    ensures forall x :: x in a <==> x in b
  {
    forall x ensures x in a <==> x in b {
      assert x in a <==> x in multiset(a);
      assert x in b <==> x in multiset(b);
    }
  }

  lemma SortedParts<T(!new)>(a: seq<T>, v: T, b: seq<T>, cmp: Compare<T>)
    requires Transitive(cmp) && Around(a, v, b, cmp)
    ensures Sorted(a + b, cmp) <==> Sorted(a, cmp) && Sorted(b, cmp)
  {
    var s := a + b;
    if Sorted(s, cmp) {
      forall i, j | 0 <= i < j < |a| ensures cmp(a[i], a[j]) <= 0 {
        assert a[i] == s[i] && a[j] == s[j];
      }
      forall i, j | 0 <= i < j < |b| ensures cmp(b[i], b[j]) <= 0 {
        assert b[i] == s[|a| + i] && b[j] == s[|a| + j];
      }
    }
    if Sorted(a, cmp) && Sorted(b, cmp) {
      forall i, j | 0 <= i < j < |s| ensures cmp(s[i], s[j]) <= 0 {
        if i < |a| <= j {
          assert cmp(s[i], v) <= 0 && cmp(v, s[j]) <= 0;
        }
      }
    }
  }

  lemma Unsorted<T>(a: seq<T>, b: seq<T>, x: T, y: T, cmp: Compare<T>)
    requires x in a && y in b && cmp(x, y) > 0
    ensures !Sorted(a + b, cmp)
  {
    var i :| 0 <= i < |a| && a[i] == x;
    var j :| 0 <= j < |b| && b[j] == y;
    var s := a + b;
    assert s[i] == x && s[|a| + j] == y;
  }

  /** A range ends up sorted exactly if no partition strands an element. */
  lemma {:induction false} SortsExactly<T(!new)>(s: seq<T>, cmp: Compare<T>)
    requires Ordering(cmp)
    ensures Sorted(Sort(s, cmp), cmp) <==> NeverStrands(s, cmp)
    decreases |s|, Rank(s, cmp)
  {
    if |s| > 1 {
      var (t, p) := Partition(s, cmp);
      var v := s[|s| - 1];
      PartitionShrinks(s, cmp);
      assert p == 0 ==> t[p..] == t;
      PartitionParts(s, cmp);
      var a, b := Sort(t[..p], cmp), Sort(t[p..], cmp);
      SortElements(t[..p], cmp);
      SortElements(t[p..], cmp);
      SameMembers(a, t[..p]);
      SameMembers(b, t[p..]);
      if Strands(s, cmp) {
        var x :| x in t[..p] && cmp(x, v) > 0;
        Unsorted(a, b, x, v, cmp);
      } else {
        SortedParts(a, v, b, cmp);
        SortsExactly(t[..p], cmp);
        SortsExactly(t[p..], cmp);
      }
    }
  }

  /** Only the greatest key may occur more than once. */
  ghost predicate OnlyGreatestRepeats<T>(s: seq<T>, cmp: Compare<T>) {
    forall i, j, k :: 0 <= i < |s| && 0 <= j < |s| && 0 <= k < |s| && i != j && cmp(s[i], s[j]) == 0 ==>
      cmp(s[k], s[i]) <= 0
  }

  lemma SwapRepeats<T>(s: seq<T>, i: nat, j: nat, cmp: Compare<T>)
    requires i < |s| && j < |s| && OnlyGreatestRepeats(s, cmp)
    ensures OnlyGreatestRepeats(Swap(s, i, j), cmp)
  {
    var t := Swap(s, i, j);
    forall x, y, z | 0 <= x < |t| && 0 <= y < |t| && 0 <= z < |t| && x != y && cmp(t[x], t[y]) == 0
      ensures cmp(t[z], t[x]) <= 0
    {
      var x', y', z' := Moved(i, j, x), Moved(i, j, y), Moved(i, j, z);
      assert t[x] == s[x'] && t[y] == s[y'] && t[z] == s[z'] && x' != y';
    }
  }

  lemma {:induction false} ScanRepeats<T>(s: seq<T>, i: nat, j: nat, cmp: Compare<T>)
    requires i <= j < |s| && OnlyGreatestRepeats(s, cmp)
    ensures OnlyGreatestRepeats(Scan(s, i, j, cmp).0, cmp)
    decreases |s| - j
  {
    hide OnlyGreatestRepeats;
    if j < |s| - 1 {
      var c := cmp(s[j], s[|s| - 1]);
      if c < 0 {
        SwapRepeats(s, i, j, cmp);
        ScanRepeats(Swap(s, i, j), i + 1, j + 1, cmp);
      } else if c == 0 {
        ScanRepeats(s, i + 1, j + 1, cmp);
      } else {
        ScanRepeats(s, i, j + 1, cmp);
      }
    }
  }

  lemma PartRepeats<T>(s: seq<T>, i: nat, j: nat, cmp: Compare<T>)
    requires i <= j <= |s| && OnlyGreatestRepeats(s, cmp)
    ensures OnlyGreatestRepeats(s[i..j], cmp)
  {
    var t := s[i..j];
    assert forall k :: 0 <= k < |t| ==> t[k] == s[i + k];
  }

  lemma StrandsNone<T>(s: seq<T>, cmp: Compare<T>)
    requires |s| > 1 && OnlyGreatestRepeats(s, cmp) && (forall x, y :: cmp(x, y) == 0 ==> cmp(y, x) == 0)
    ensures !Strands(s, cmp)
  {
    var v := s[|s| - 1];
    forall k, m | 0 <= k < m < |s| - 1 && cmp(s[m], v) == 0 ensures cmp(s[k], v) <= 0 {
      assert cmp(v, s[m]) == 0;
    }
  }

  lemma PartitionRepeats<T(!new)>(s: seq<T>, cmp: Compare<T>)
    requires |s| > 1 && OnlyGreatestRepeats(s, cmp)
    ensures
      var (t, p) := Partition(s, cmp);
      OnlyGreatestRepeats(t[..p], cmp) && OnlyGreatestRepeats(t[p..], cmp)
  {
    hide OnlyGreatestRepeats;
    var (u, i) := Scan(s, 0, 0, cmp);
    ScanRepeats(s, 0, 0, cmp);
    SwapRepeats(u, i, |u| - 1, cmp);
    var (t, p) := Partition(s, cmp);
    PartRepeats(t, 0, p, cmp);
    PartRepeats(t, p, |t|, cmp);
    assert t[0..p] == t[..p] && t[p..|t|] == t[p..];
  }

  lemma SignZero<T(!new)>(cmp: Compare<T>)
    requires Antisymmetric(cmp)
    ensures forall x, y :: cmp(x, y) == 0 ==> cmp(y, x) == 0
  {
    forall x, y | cmp(x, y) == 0 ensures cmp(y, x) == 0 {
      assert cmp(x, y) < 0 <==> cmp(y, x) > 0;
      assert cmp(y, x) < 0 <==> cmp(x, y) > 0;
    }
  }

  /** Where only the greatest key repeats, everything is sorted. */
  lemma {:induction false} GreatestSorts<T(!new)>(s: seq<T>, cmp: Compare<T>)
    requires Ordering(cmp) && OnlyGreatestRepeats(s, cmp)
    ensures NeverStrands(s, cmp) && Sorted(Sort(s, cmp), cmp)
    decreases |s|, Rank(s, cmp)
  {
    hide OnlyGreatestRepeats, Strands, Sorted, Partition, Sort, Transitive;
    SortsExactly(s, cmp);
    if |s| > 1 {
      var (t, p) := Partition(s, cmp);
      PartitionShrinks(s, cmp);
      assert p == 0 ==> t[p..] == t;
      PartitionRepeats(s, cmp);
      SignZero(cmp);
      StrandsNone(s, cmp);
      GreatestSorts(t[..p], cmp);
      GreatestSorts(t[p..], cmp);
    }
  }

  /** The same elements in another order. */
  ghost predicate Arrangement<T(!new)>(t: seq<T>, s: seq<T>) {
    multiset(t) == multiset(s)
  }

  /** Elements are sorted in whatever order they come if and only if only the
      greatest key occurs more than once. */
  lemma SortsAnyOrder<T(!new)>(s: seq<T>, cmp: Compare<T>)
    requires Ordering(cmp)
    ensures OnlyGreatestRepeats(s, cmp) <==>
      forall t :: Arrangement(t, s) ==> Sorted(Sort(t, cmp), cmp)
  {
    if OnlyGreatestRepeats(s, cmp) {
      forall t | Arrangement(t, s) ensures Sorted(Sort(t, cmp), cmp) {
        SameRepeats(s, t, cmp);
        GreatestSorts(t, cmp);
      }
    } else {
      var t := BadOrder(s, cmp);
      SortsExactly(t, cmp);
      assert Arrangement(t, s) && !Sorted(Sort(t, cmp), cmp);
    }
  }

  /** The order of the elements does not matter. */
  lemma SameRepeats<T(!new)>(s: seq<T>, t: seq<T>, cmp: Compare<T>)
    requires OnlyGreatestRepeats(s, cmp) && Arrangement(t, s) && Ordering(cmp)
    ensures OnlyGreatestRepeats(t, cmp)
  {
    forall i, j, k | 0 <= i < |t| && 0 <= j < |t| && 0 <= k < |t| && i != j && cmp(t[i], t[j]) == 0
      ensures cmp(t[k], t[i]) <= 0
    {
      assert t[k] in multiset(t);
      var z :| 0 <= z < |s| && s[z] == t[k];
      var x, y := TwoOf(s, t, i, j);
      assert cmp(s[z], s[x]) <= 0;
    }
  }

  lemma Removed<T(!new)>(s: seq<T>, x: nat)
    requires x < |s|
    ensures multiset(s) == multiset(s[..x] + s[x + 1..]) + multiset{s[x]}
  {
    assert s == s[..x] + [s[x]] + s[x + 1..];
  }

  lemma Beside<T(!new)>(t: seq<T>, i: nat, j: nat)
    requires i < |t| && j < |t| && i != j
    ensures t[j] in multiset(t[..i] + t[i + 1..])
  {
    var others := t[..i] + t[i + 1..];
    assert others[if j < i then j else j - 1] == t[j];
  }

  lemma IndexOf<T(!new)>(s: seq<T>, e: T) returns (x: nat)
    requires e in multiset(s)
    ensures x < |s| && s[x] == e
  {
    x :| x < |s| && s[x] == e;
  }

  /** Two elements of `t`, found in `s`. */
  lemma TwoOf<T(!new)>(s: seq<T>, t: seq<T>, i: nat, j: nat) returns (x: nat, y: nat)
    requires multiset(t) == multiset(s) && i < |t| && j < |t| && i != j
    ensures x < |s| && y < |s| && x != y && s[x] == t[i] && s[y] == t[j]
  {
    x := IndexOf(s, t[i]);
    Removed(s, x);
    Removed(t, i);
    var rest, others := s[..x] + s[x + 1..], t[..i] + t[i + 1..];
    assert multiset(others) == multiset(t) - multiset{t[i]};
    assert multiset(rest) == multiset(s) - multiset{t[i]};
    Beside(t, i, j);
    var r := IndexOf(rest, t[j]);
    y := if r < x then r else r + 1;
  }

  /** An order in which a partition strands an element: two equal keys at the
      end, and one above them anywhere in front. */
  lemma BadOrder<T(!new)>(s: seq<T>, cmp: Compare<T>) returns (t: seq<T>)
    requires Ordering(cmp) && !OnlyGreatestRepeats(s, cmp)
    ensures Arrangement(t, s) && !NeverStrands(t, cmp)
  {
    var i, j, k :| 0 <= i < |s| && 0 <= j < |s| && 0 <= k < |s| && i != j &&
      cmp(s[i], s[j]) == 0 && cmp(s[k], s[i]) > 0;
    SignZero(cmp);
    assert cmp(s[k], s[j]) > 0 by {
      Above(s[k], s[i], s[j], cmp);
    }
    assert k != i && k != j by {
      assert cmp(s[j], s[i]) == 0 && cmp(s[i], s[i]) <= 0;
    }
    var at;
    t, at := TwoLast(s, i, j, k);
    assert Strands(t, cmp);
  }

  /** Exchanges that bring two elements to the end. */
  lemma TwoLast<T(!new)>(s: seq<T>, i: nat, j: nat, k: nat) returns (t: seq<T>, at: nat)
    requires i < |s| && j < |s| && k < |s| && i != j && i != k && j != k
    ensures multiset(t) == multiset(s) && |t| == |s| && at < |t| - 2
    ensures t[|t| - 1] == s[j] && t[|t| - 2] == s[i] && t[at] == s[k]
  {
    hide Swap;
    var n := |s|;
    var u := Swap(s, j, n - 1);
    var i', k' := Moved(j, n - 1, i), Moved(j, n - 1, k);
    SwapMoves(s, j, n - 1, i);
    SwapMoves(s, j, n - 1, j);
    SwapMoves(s, j, n - 1, k);
    t := Swap(u, i', n - 2);
    at := Moved(i', n - 2, k');
    SwapMoves(u, i', n - 2, i');
    SwapMoves(u, i', n - 2, n - 1);
    SwapMoves(u, i', n - 2, k');
    SwapElements(s, j, n - 1);
    SwapElements(u, i', n - 2);
  }

  lemma Above<T(!new)>(x: T, y: T, z: T, cmp: Compare<T>)
    requires Ordering(cmp) && cmp(x, y) > 0 && cmp(y, z) == 0
    ensures cmp(x, z) > 0
  {
    SignZero(cmp);
    assert cmp(z, y) <= 0;
  }

  ghost predicate Distinct<T>(s: seq<T>, cmp: Compare<T>) {
    forall i, j :: 0 <= i < |s| && 0 <= j < |s| && i != j ==> cmp(s[i], s[j]) != 0
  }

  /** Without equal keys everything is sorted. */
  lemma DistinctSorts<T(!new)>(s: seq<T>, cmp: Compare<T>)
    requires Ordering(cmp) && Distinct(s, cmp)
    ensures Sorted(Sort(s, cmp), cmp)
  {
    GreatestSorts(s, cmp);
  }

  lemma {:induction false} ScanSorted<T(!new)>(s: seq<T>, j: nat, cmp: Compare<T>)
    requires j < |s| && Sorted(s, cmp)
    ensures Scan(s, j, j, cmp) == (s, |s| - 1)
    decreases |s| - j
  {
    if j < |s| - 1 {
      assert cmp(s[j], s[|s| - 1]) <= 0;
      assert Swap(s, j, j) == s;
      ScanSorted(s, j + 1, cmp);
    }
  }

  /** A sorted range stays as it is, equal keys and all. */
  lemma {:induction false} SortedStays<T(!new)>(s: seq<T>, cmp: Compare<T>)
    requires Antisymmetric(cmp) && Sorted(s, cmp)
    ensures Sort(s, cmp) == s
    decreases |s|
  {
    if |s| > 1 {
      ScanSorted(s, 0, cmp);
      var (t, p) := Partition(s, cmp);
      var n := |s| - 1;
      assert t == s && p == n by {
        assert cmp(s[n], s[n]) >= 0;
      }
      SortedStays(s[..n], cmp);
      assert Sort(s[n..], cmp) == s[n..];
      assert s == s[..n] + s[n..];
    }
  }

  /** Equal keys in front of everything above them may be left unsorted: here
      the first partition moves 9 in front of them. */
  lemma EqualKeysFirst()
    ensures
      var cmp: Compare<int> := (x: int, y: int) => x - y;
      Ordering(cmp) && !Sorted(Sort([5, 5, 9, 1, 4], cmp), cmp)
  {
    var cmp: Compare<int> := (x: int, y: int) => x - y;
    var s, t := [5, 5, 9, 1, 4], [1, 5, 9, 5, 4];
    assert Scan(t, 1, 4, cmp) == (t, 1);
    assert Swap(s, 0, 3) == t;
    assert Scan(s, 0, 3, cmp) == (t, 1);
    assert Scan(s, 0, 2, cmp) == (t, 1);
    assert Scan(s, 0, 1, cmp) == (t, 1);
    assert Scan(s, 0, 0, cmp) == (t, 1);
    var u := [1, 4, 9, 5, 5];
    assert Swap(t, 1, 4) == u;
    assert Partition(s, cmp) == (u, 1);
    var r := [4, 9, 5, 5];
    assert u[1..] == r && u[..1] == [1];
    assert cmp(r[1], r[3]) > 0 && cmp(r[2], r[3]) == 0;
    assert Strands(r, cmp);
    assert !NeverStrands(s, cmp);
    SortsExactly(s, cmp);
  }

  /** Keys in descending order with an equal pair stay as they are. */
  lemma EqualKeysUnsorted()
    ensures
      var cmp: Compare<int> := (x: int, y: int) => x - y;
      Ordering(cmp) && Sort([3, 2, 2], cmp) == [3, 2, 2] && !Sorted([3, 2, 2], cmp)
  {
    var cmp: Compare<int> := (x: int, y: int) => x - y;
    var s := [3, 2, 2];
    assert Scan(s, 0, 2, cmp) == (s, 0);
    assert Scan(s, 1, 2, cmp) == (s, 1);
    assert Scan(s, 0, 1, cmp) == (s, 1);
    assert Scan(s, 0, 0, cmp) == (s, 1);
    assert Partition(s, cmp) == (s, 1);
    assert s[..1] == [3] && s[1..] == [2, 2];
    var r := [2, 2];
    assert Scan(r, 1, 1, cmp) == (r, 1);
    assert Scan(r, 0, 0, cmp) == (r, 1);
    assert Partition(r, cmp) == (r, 1);
    assert r[..1] == [2] && r[1..] == [2];
    assert Sort(r, cmp) == [2] + [2];
    assert cmp(s[0], s[1]) > 0;
  }

  /** Exchanges two elements of `size` bytes, byte by byte. */
  method Qswap(bytes: array<int>, a: nat, b: nat, size: nat)
    requires size > 0 && a + size <= bytes.Length && b + size <= bytes.Length
    requires a == b || a + size <= b || b + size <= a
    modifies bytes
    ensures forall k :: a <= k < a + size ==> bytes[k] == old(bytes[k - a + b])
    ensures forall k :: b <= k < b + size ==> bytes[k] == old(bytes[k - b + a])
    ensures forall k :: 0 <= k < bytes.Length && !(a <= k < a + size) && !(b <= k < b + size) ==>
      bytes[k] == old(bytes[k])
  {
    var pa, pb, left := a, b, size;
    while left > 0
      invariant 0 <= left <= size && pa == a + size - left && pb == b + size - left
      invariant forall k :: a <= k < pa ==> bytes[k] == old(bytes[k - a + b])
      invariant forall k :: b <= k < pb ==> bytes[k] == old(bytes[k - b + a])
      invariant forall k :: pa <= k < a + size ==> bytes[k] == old(bytes[k])
      invariant forall k :: pb <= k < b + size ==> bytes[k] == old(bytes[k])
      invariant forall k :: 0 <= k < bytes.Length && !(a <= k < a + size) && !(b <= k < b + size) ==>
        bytes[k] == old(bytes[k])
    {
      var tmp := bytes[pa];
      bytes[pa] := bytes[pb];
      pa := pa + 1;
      bytes[pb] := tmp;
      pb := pb + 1;
      left := left - 1;
    }
  }

  lemma ScanStep<T>(s: seq<T>, i: nat, j: nat, cmp: Compare<T>)
    requires i <= j < |s|
    ensures Scan(s, i, j, cmp) ==
      if j == |s| - 1 then (s, i)
      else
        var c := cmp(s[j], s[|s| - 1]);
        if c < 0 then Scan(Swap(s, i, j), i + 1, j + 1, cmp)
        else Scan(s, if c == 0 then i + 1 else i, j + 1, cmp)
  {
  }

  method Qpart<T>(a: array<T>, lo: nat, count: nat, cmp: Compare<T>) returns (i: nat)
    requires lo + count < a.Length
    modifies a
    ensures (a[lo..lo + count + 1], i) == Partition(old(a[lo..lo + count + 1]), cmp)
    ensures a[..lo] == old(a[..lo]) && a[lo + count + 1..] == old(a[lo + count + 1..])
  {
    hide Scan;
    ghost var s := a[lo..lo + count + 1];
    i := 0;
    var j := 0;
    while j < count
      invariant 0 <= i <= j <= count
      invariant Scan(a[lo..lo + count + 1], i, j, cmp) == Scan(s, 0, 0, cmp)
      invariant a[..lo] == old(a[..lo]) && a[lo + count + 1..] == old(a[lo + count + 1..])
    {
      ScanStep(a[lo..lo + count + 1], i, j, cmp);
      var c := cmp(a[lo + j], a[lo + count]);
      if c < 0 {
        ExchangeRange(a, lo, count, i, j);
        i := i + 1;
      } else if c == 0 {
        i := i + 1;
      }
      j := j + 1;
    }
    ScanStep(a[lo..lo + count + 1], i, j, cmp);
    if cmp(a[lo + count], a[lo + i]) < 0 {
      ExchangeRange(a, lo, count, i, count);
    }
  }

  method ExchangeRange<T>(a: array<T>, lo: nat, count: nat, i: nat, j: nat)
    requires lo + count < a.Length && i <= count && j <= count
    modifies a
    ensures a[lo..lo + count + 1] == Swap(old(a[lo..lo + count + 1]), i, j)
    ensures a[..lo] == old(a[..lo]) && a[lo + count + 1..] == old(a[lo + count + 1..])
  {
    a[lo + i], a[lo + j] := a[lo + j], a[lo + i];
  }

  method Qsort<T(!new)>(a: array<T>, lo: nat, count: nat, cmp: Compare<T>)
    requires lo + count <= a.Length && Antisymmetric(cmp)
    modifies a
    ensures a[lo..lo + count] == Sort(old(a[lo..lo + count]), cmp)
    ensures a[..lo] == old(a[..lo]) && a[lo + count..] == old(a[lo + count..])
    decreases count, Rank(a[lo..lo + count], cmp), 0
  {
    hide Sort;
    ghost var s := a[lo..lo + count];
    SortUnfold(s, cmp);
    if count > 1 {
      PartitionShrinks(s, cmp);
      var p := Qpart(a, lo, count - 1, cmp);
      ghost var t := a[lo..lo + count];
      assert (t, p) == Partition(s, cmp);
      assert p == 0 ==> t[p..] == t;
      hide Partition;
      QsortParts(a, lo, count, p, cmp, t);
    }
  }

  /** The two recursive calls. */
  method QsortParts<T(!new)>(a: array<T>, lo: nat, count: nat, p: nat, cmp: Compare<T>, ghost t: seq<T>)
    requires p < count && lo + count <= a.Length && Antisymmetric(cmp)
    requires a[lo..lo + count] == t
    modifies a
    ensures a[lo..lo + count] == Sort(t[..p], cmp) + Sort(t[p..], cmp)
    ensures a[..lo] == old(a[..lo]) && a[lo + count..] == old(a[lo + count..])
    decreases if p == 0 then count else count - 1, if p == 0 then Rank(t, cmp) else 2, 1
  {
    hide *;
    ghost var s0 := a[..];
    assert a[lo..lo + p] == t[..p];
    Qsort(a, lo, p, cmp);
    ghost var s1 := a[..];
    SameBehind(s0, s1, lo + p, lo + count);
    assert s1[lo..lo + p] == Sort(t[..p], cmp);
    assert a[lo + p..lo + count] == s0[lo..lo + count][p..] == t[p..];
    assert lo + p + (count - p) == lo + count;
    assert p == 0 ==> t[p..] == t;
    Qsort(a, lo + p, count - p, cmp);
    assert a[lo + p..lo + count] == Sort(t[p..], cmp);
    Joined(s0, s1, a[..], lo, p, count);
  }

  lemma SameBehind<T>(s0: seq<T>, s1: seq<T>, i: nat, j: nat)
    requires i <= j <= |s0| == |s1| && s1[i..] == s0[i..]
    ensures s1[i..j] == s0[i..j] && s1[j..] == s0[j..]
  {
    assert s1[i..j] == s1[i..][..j - i] && s0[i..j] == s0[i..][..j - i];
    assert s1[j..] == s1[i..][j - i..] && s0[j..] == s0[i..][j - i..];
  }

  lemma SortUnfold<T(!new)>(s: seq<T>, cmp: Compare<T>)
    requires Antisymmetric(cmp)
    ensures |s| <= 1 ==> Sort(s, cmp) == s
    ensures |s| > 1 ==>
      var (t, p) := Partition(s, cmp);
      Sort(s, cmp) == Sort(t[..p], cmp) + Sort(t[p..], cmp)
  {
  }

  /** One part was rewritten, and then the other. */
  lemma Joined<T>(s0: seq<T>, s1: seq<T>, s2: seq<T>, lo: nat, p: nat, n: nat)
    requires p <= n && lo + n <= |s0| == |s1| == |s2|
    requires s1[..lo] == s0[..lo] && s1[lo + n..] == s0[lo + n..]
    requires s2[..lo + p] == s1[..lo + p] && s2[lo + n..] == s1[lo + n..]
    ensures s2[lo..lo + n] == s1[lo..lo + p] + s2[lo + p..lo + n]
    ensures s2[..lo] == s0[..lo] && s2[lo + n..] == s0[lo + n..]
  {
    assert s2[lo..lo + p] == s2[..lo + p][lo..] == s1[lo..lo + p];
    assert s2[..lo] == s2[..lo + p][..lo] && s1[..lo] == s1[..lo + p][..lo];
  }
}
