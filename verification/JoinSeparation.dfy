/** Row-level facts behind stages 1 and 2 of SecretJoin: merge both tables, sort by key and
    origin, count the key groups, then separate by a stable sort on the origin mark. */
module JoinSeparation {
  import opened Columns
  import opened Ordering
  import opened KeyGroups

  /** 0 for the left rows, 1 for the right rows. */
  function Origin(nl: nat, nr: nat): (o: seq<Bit>)
    ensures |o| == nl + nr && forall i :: 0 <= i < |o| ==> o[i] == if i < nl then 0 else 1
  {
    seq(nl + nr, i requires 0 <= i < nl + nr => if i < nl then 0 else 1)
  }

  /** Append one more key column. */
  function WithLast(keys: seq<Key>, o: Column): (r: seq<Key>)
    requires |keys| == |o|
    ensures |r| == |o| && forall i :: 0 <= i < |o| ==> r[i] == keys[i] + [o[i]]
  {
    seq(|o|, i requires 0 <= i < |o| => keys[i] + [o[i]])
  }

  ghost predicate SameWidth(keys: seq<Key>, w: nat) {
    forall i :: 0 <= i < |keys| ==> |keys[i]| == w
  }

  lemma SortedGrouped(keys: seq<Key>, o: Column, p: seq<nat>, w: nat)
    requires |keys| == |o| && SameWidth(keys, w) && StablySorted(WithLast(keys, o), p)
    ensures Grouped(Gather(keys, p))
  {
    var k' := Gather(keys, p);
    forall a, b | 0 <= a < b < |p| ensures !LexLess(k'[b], k'[a]) {
      var r := WithLast(keys, o);
      assert Before(r, p[a], p[b]);
      LexLastColumn(k'[a], k'[b], o[p[a]], o[p[b]]);
      LexTotal(k'[a], k'[b]);
      assert r[p[a]] == r[p[b]] ==> k'[a] == k'[b] by { SameInit(k'[a], k'[b], o[p[a]], o[p[b]]); }
    }
    forall i, j, k | 0 <= i < j < k < |k'| && k'[i] == k'[k] ensures k'[j] == k'[k] {
      LexTotal(k'[i], k'[j]);
    }
  }

  lemma SameInit(a: Key, b: Key, x: int, y: int)
    ensures a + [x] == b + [y] ==> a == b && x == y
  {
    if a + [x] == b + [y] {
      assert |a| == |b| && (a + [x])[|a|] == x && (b + [y])[|b|] == y;
      assert a == (a + [x])[..|a|] == (b + [y])[..|b|] == b;
    }
  }

  // ---- rows with a given origin

  /** The rows with mark b, in order. */
  function Where(o: seq<Bit>, b: Bit): (idx: seq<nat>)
    ensures InRange(idx, |o|)
    ensures forall a :: 0 <= a < |idx| ==> o[idx[a]] == b
  {
    var n := |o|;
    if n == 0 then []
    else if o[n - 1] == b then Where(o[..n - 1], b) + [n - 1]
    else Where(o[..n - 1], b)
  }

  lemma {:induction false} WhereIncreasing(o: seq<Bit>, b: Bit)
    ensures forall a, c :: 0 <= a < c < |Where(o, b)| ==> Where(o, b)[a] < Where(o, b)[c]
  {
    if o != [] {
      WhereIncreasing(o[..|o| - 1], b);
    }
  }

  lemma {:induction false} WhereSize(o: seq<Bit>)
    ensures |Where(o, 1)| == Sum(o) && |Where(o, 0)| == |o| - Sum(o)
  {
    if o != [] {
      WhereSize(o[..|o| - 1]);
    }
  }

  /** The rows below t with mark b are a prefix of all rows with mark b. */
  lemma {:induction false} WherePrefix(o: seq<Bit>, b: Bit, t: nat)
    requires t <= |o|
    ensures Where(o[..t], b) <= Where(o, b)
    decreases |o|
  {
    if t < |o| {
      WherePrefix(o[..|o| - 1], b, t);
      assert o[..|o| - 1][..t] == o[..t];
    } else {
      assert o[..t] == o;
    }
  }

  /** A stable sort on a 0/1 column puts the 0 rows first and the 1 rows last, in order. */
  lemma SeparationPerm(o: seq<Bit>)
    ensures SortIndices(SingleKeys(o)) == Where(o, 0) + Where(o, 1)
  {
    var q := Where(o, 0) + Where(o, 1);
    var keys := SingleKeys(o);
    WhereSize(o);
    WhereIncreasing(o, 0);
    WhereIncreasing(o, 1);
    forall a, b | 0 <= a < b < |q| ensures Before(keys, q[a], q[b]) {
      assert o[q[a]] <= o[q[b]];
    }
    StableSortUnique(keys, q);
  }

  // ---- counting rows of a key

  /** In the merged table the right weight of a key is its number of right rows. */
  lemma MergedCounts(lk: seq<Key>, rk: seq<Key>, k: Key)
    ensures MatchSum(lk + rk, Origin(|lk|, |rk|), k) == multiset(rk)[k]
    ensures MatchSum(lk + rk, Flip(Origin(|lk|, |rk|)), k) == multiset(lk)[k]
  {
    var o := Origin(|lk|, |rk|);
    IndicatorSum(lk, k);
    IndicatorSum(rk, k);
    var l1, r1 := Selected(lk, Ones(|lk|), k), Selected(rk, Ones(|rk|), k);
    assert Selected(lk + rk, o, k) == Zeros(|lk|) + r1;
    assert Selected(lk + rk, Flip(o), k) == l1 + Zeros(|rk|);
    SumOfZeros(Zeros(|lk|));
    SumOfZeros(Zeros(|rk|));
    SumConcat(Zeros(|lk|), r1);
    SumConcat(l1, Zeros(|rk|));
  }

  /** Sorting does not change the weight of a key. */
  lemma MatchSumPerm(keys: seq<Key>, w: Column, p: seq<nat>, k: Key)
    requires |keys| == |w| && IsPerm(p, |w|)
    ensures MatchSum(Gather(keys, p), Gather(w, p), k) == MatchSum(keys, w, k)
  {
    var s := Selected(keys, w, k);
    assert Selected(Gather(keys, p), Gather(w, p), k) == Gather(s, p);
    GatherPerm(s, p);
    SumMultiset(Gather(s, p), s);
  }

  lemma WhereStep(o: seq<Bit>, b: Bit, t: nat)
    requires 0 < t <= |o|
    ensures Where(o[..t], b) == Where(o[..t - 1], b) + (if o[t - 1] == b then [t - 1] else [])
  {
    assert o[..t][..t - 1] == o[..t - 1];
  }

  lemma CountAppend(s: seq<Key>, x: Key, k: Key)
    ensures multiset(s + [x])[k] == multiset(s)[k] + if x == k then 1 else 0
  {
  }

  /** The keys of the rows below t with mark b, in order. */
  function Marked(keys: seq<Key>, o: seq<Bit>, b: Bit, t: nat): (r: seq<Key>)
    requires |keys| == |o| && t <= |o|
  {
    Gather(keys[..t], Where(o[..t], b))
  }

  lemma MarkedStep(keys: seq<Key>, o: seq<Bit>, b: Bit, t: nat)
    requires |keys| == |o| && 0 < t <= |o|
    ensures Marked(keys, o, b, t) == Marked(keys, o, b, t - 1) + if o[t - 1] == b then [keys[t - 1]] else []
  {
    WhereStep(o, b, t);
  }

  /** The running right count, read at right rows only, counts along the separated right table. */
  lemma {:induction false} RunningRight(keys: seq<Key>, o: seq<Bit>, k: Key, t: nat)
    requires |keys| == |o| && t <= |o|
    ensures Sum(Selected(keys, o, k)[..t]) == multiset(Marked(keys, o, 1, t))[k]
  {
    if t > 0 {
      RunningRight(keys, o, k, t - 1);
      SumStep(Selected(keys, o, k), t - 1);
      MarkedStep(keys, o, 1, t);
      CountAppend(Marked(keys, o, 1, t - 1), keys[t - 1], k);
    }
  }

  // ---- both sorts together

  function MergedOrder(lk: seq<Key>, rk: seq<Key>): (p: seq<nat>)
    ensures |p| == |lk| + |rk| && InRange(p, |lk| + |rk|)
  {
    SortIndices(WithLast(lk + rk, Origin(|lk|, |rk|)))
  }

  function MergedKeys(lk: seq<Key>, rk: seq<Key>): (k: seq<Key>)
    ensures |k| == |lk| + |rk|
  {
    Gather(lk + rk, MergedOrder(lk, rk))
  }

  function MergedOrigin(lk: seq<Key>, rk: seq<Key>): (o: seq<Bit>)
    ensures |o| == |lk| + |rk|
  {
    Gather(Origin(|lk|, |rk|), MergedOrder(lk, rk))
  }

  function SeparatedOrder(lk: seq<Key>, rk: seq<Key>): (q: seq<nat>)
    ensures |q| == |lk| + |rk| && InRange(q, |lk| + |rk|)
  {
    SortIndices(SingleKeys(MergedOrigin(lk, rk)))
  }

  function Shift(p: seq<nat>, d: nat): (r: seq<nat>)
    ensures |r| == |p| && forall i :: 0 <= i < |p| ==> r[i] == p[i] + d
  {
    seq(|p|, i requires 0 <= i < |p| => p[i] + d)
  }

  lemma OriginCounts(lk: seq<Key>, rk: seq<Key>)
    ensures |Where(MergedOrigin(lk, rk), 0)| == |lk| && |Where(MergedOrigin(lk, rk), 1)| == |rk|
  {
    var o := Origin(|lk|, |rk|);
    WhereSize(MergedOrigin(lk, rk));
    SortIndicesSorts(WithLast(lk + rk, o));
    GatherPerm<Bit>(o, MergedOrder(lk, rk));
    SumMultiset(MergedOrigin(lk, rk), o);
    assert o == Zeros(|lk|) + Ones(|rk|);
    SumConcat(Zeros(|lk|), Ones(|rk|));
    SumOfZeros(Zeros(|lk|));
    SumOfOnes(|rk|);
  }

  /** Original rows of one table, in the order both sorts leave them. */
  function SideRows(lk: seq<Key>, rk: seq<Key>, b: Bit): (s: seq<nat>)
    ensures InRange(s, |lk| + |rk|)
    ensures forall a :: 0 <= a < |s| ==> (s[a] < |lk| <==> b == 0)
  {
    Gather(MergedOrder(lk, rk), Where(MergedOrigin(lk, rk), b))
  }

  lemma SideSizes(lk: seq<Key>, rk: seq<Key>)
    ensures |SideRows(lk, rk, 0)| == |lk| && |SideRows(lk, rk, 1)| == |rk|
  {
    OriginCounts(lk, rk);
  }

  lemma SideBefore(lk: seq<Key>, rk: seq<Key>, w: nat, b: Bit, x: nat, y: nat)
    requires SameWidth(lk, w) && SameWidth(rk, w)
    requires 0 <= x < y < |SideRows(lk, rk, b)|
    ensures Before(lk + rk, SideRows(lk, rk, b)[x], SideRows(lk, rk, b)[y])
  {
    var k, o, s := lk + rk, Origin(|lk|, |rk|), SideRows(lk, rk, b);
    SortIndicesSorts(WithLast(k, o));
    WhereIncreasing(MergedOrigin(lk, rk), b);
    assert Before(WithLast(k, o), s[x], s[y]);
    LexLastColumn(k[s[x]], k[s[y]], o[s[x]], o[s[y]]);
    SameInit(k[s[x]], k[s[y]], o[s[x]], o[s[y]]);
  }

  /** Merging, sorting and separating leaves each table stably sorted by its own keys. */
  lemma SeparatedRows(lk: seq<Key>, rk: seq<Key>, w: nat)
    requires SameWidth(lk, w) && SameWidth(rk, w)
    ensures Gather(MergedOrder(lk, rk), SeparatedOrder(lk, rk)) == SortIndices(lk) + Shift(SortIndices(rk), |lk|)
  {
    OriginCounts(lk, rk);
    SeparationPerm(MergedOrigin(lk, rk));
    LeftSide(lk, rk, w);
    RightSide(lk, rk, w);
    GatherConcat(MergedOrder(lk, rk), Where(MergedOrigin(lk, rk), 0), Where(MergedOrigin(lk, rk), 1));
  }

  lemma GatherConcat<T>(x: seq<T>, p: seq<nat>, q: seq<nat>)
    requires InRange(p, |x|) && InRange(q, |x|)
    ensures InRange(p + q, |x|) && Gather(x, p + q) == Gather(x, p) + Gather(x, q)
  {
  }

  lemma LeftSide(lk: seq<Key>, rk: seq<Key>, w: nat)
    requires SameWidth(lk, w) && SameWidth(rk, w)
    ensures SideRows(lk, rk, 0) == SortIndices(lk)
  {
    var l := SideRows(lk, rk, 0);
    SideSizes(lk, rk);
    forall a, b | 0 <= a < b < |l| ensures Before(lk, l[a], l[b]) {
      SideBefore(lk, rk, w, 0, a, b);
    }
    StableSortUnique(lk, l);
  }

  lemma BeforeInRight(lk: seq<Key>, rk: seq<Key>, x: nat, y: nat)
    requires |lk| <= x < |lk| + |rk| && |lk| <= y < |lk| + |rk| && Before(lk + rk, x, y)
    ensures Before(rk, x - |lk|, y - |lk|)
  {
    assert (lk + rk)[x] == rk[x - |lk|] && (lk + rk)[y] == rk[y - |lk|];
  }

  function Unshift(s: seq<nat>, d: nat): (r: seq<nat>)
    requires forall i :: 0 <= i < |s| ==> s[i] >= d
    ensures |r| == |s| && forall i :: 0 <= i < |s| ==> r[i] == s[i] - d
  {
    seq(|s|, i requires 0 <= i < |s| => s[i] - d)
  }

  lemma RightSide(lk: seq<Key>, rk: seq<Key>, w: nat)
    requires SameWidth(lk, w) && SameWidth(rk, w)
    ensures SideRows(lk, rk, 1) == Shift(SortIndices(rk), |lk|)
  {
    var s := SideRows(lk, rk, 1);
    var r := Unshift(s, |lk|);
    SideSizes(lk, rk);
    forall a, b | 0 <= a < b < |r| ensures Before(rk, r[a], r[b]) {
      SideBefore(lk, rk, w, 1, a, b);
      BeforeInRight(lk, rk, s[a], s[b]);
    }
    StableSortUnique(rk, r);
  }

  lemma MergedGrouped(lk: seq<Key>, rk: seq<Key>, w: nat)
    requires SameWidth(lk, w) && SameWidth(rk, w)
    ensures Grouped(MergedKeys(lk, rk))
  {
    var k, o := lk + rk, Origin(|lk|, |rk|);
    SortIndicesSorts(WithLast(k, o));
    SortedGrouped(k, o, MergedOrder(lk, rk), w);
  }

  /** The group weights of the sorted merged table are the two tables' counts of the key. */
  lemma MergedRowCounts(lk: seq<Key>, rk: seq<Key>, k: Key)
    ensures MatchSum(MergedKeys(lk, rk), MergedOrigin(lk, rk), k) == multiset(rk)[k]
    ensures MatchSum(MergedKeys(lk, rk), Flip(MergedOrigin(lk, rk)), k) == multiset(lk)[k]
  {
    var o, p := Origin(|lk|, |rk|), MergedOrder(lk, rk);
    SortIndicesSorts(WithLast(lk + rk, o));
    MatchSumPerm(lk + rk, o, p, k);
    MatchSumPerm(lk + rk, Flip(o), p, k);
    assert Gather<int>(o, p) == MergedOrigin(lk, rk);
    assert Gather<int>(Flip(o), p) == Flip(MergedOrigin(lk, rk));
    MergedCounts(lk, rk, k);
  }

  lemma PrefixByLast(pre: seq<nat>, all: seq<nat>, j: nat)
    requires forall a, c :: 0 <= a < c < |all| ==> all[a] < all[c]
    requires pre <= all && j < |all| && pre != [] && pre[|pre| - 1] == all[j]
    ensures pre == all[..j + 1]
  {
    assert all[|pre| - 1] == all[j];
  }

  /** The first j + 1 rows with mark b are those up to the j-th of them. */
  lemma WhereCut(o: seq<Bit>, b: Bit, j: nat)
    requires j < |Where(o, b)|
    ensures Where(o[..Where(o, b)[j] + 1], b) == Where(o, b)[..j + 1]
  {
    var t := Where(o, b)[j];
    WherePrefix(o, b, t + 1);
    WhereStep(o, b, t + 1);
    WhereIncreasing(o, b);
    PrefixByLast(Where(o[..t + 1], b), Where(o, b), j);
  }

  lemma MarkedCut(keys: seq<Key>, o: seq<Bit>, b: Bit, j: nat)
    requires |keys| == |o| && j < |Where(o, b)|
    ensures Marked(keys, o, b, Where(o, b)[j] + 1) == Gather(keys, Where(o, b))[..j + 1]
  {
    WhereCut(o, b, j);
  }

  lemma RightKeys(lk: seq<Key>, rk: seq<Key>, w: nat)
    requires SameWidth(lk, w) && SameWidth(rk, w)
    ensures Gather(MergedKeys(lk, rk), Where(MergedOrigin(lk, rk), 1)) == Gather(rk, SortIndices(rk))
  {
    RightSide(lk, rk, w);
    var a := Gather(MergedKeys(lk, rk), Where(MergedOrigin(lk, rk), 1));
    forall i | 0 <= i < |a| ensures a[i] == rk[SortIndices(rk)[i]] {
      assert a[i] == (lk + rk)[SideRows(lk, rk, 1)[i]];
    }
  }

  lemma RightRowPosition(lk: seq<Key>, rk: seq<Key>, j: nat)
    requires j < |rk|
    ensures |Where(MergedOrigin(lk, rk), 1)| == |rk|
    ensures SeparatedOrder(lk, rk)[|lk| + j] == Where(MergedOrigin(lk, rk), 1)[j]
  {
    OriginCounts(lk, rk);
    SeparatedSplit(lk, rk);
  }

  lemma SeparatedSplit(lk: seq<Key>, rk: seq<Key>)
    ensures SeparatedOrder(lk, rk) == Where(MergedOrigin(lk, rk), 0) + Where(MergedOrigin(lk, rk), 1)
  {
    SeparationPerm(MergedOrigin(lk, rk));
  }

  lemma CountUpTo(keys: seq<Key>, o: seq<Bit>, j: nat, keys': seq<Key>)
    requires |keys| == |o| && j < |Where(o, 1)| && keys' == Gather(keys, Where(o, 1))
    ensures Sum(Selected(keys, o, keys'[j])[..Where(o, 1)[j] + 1]) == multiset(keys'[..j + 1])[keys'[j]]
  {
    RunningRight(keys, o, keys'[j], Where(o, 1)[j] + 1);
    MarkedCut(keys, o, 1, j);
  }

  /** The running right index: the number of right rows of its key up to right row j. */
  lemma RunningRightIndex(lk: seq<Key>, rk: seq<Key>, w: nat, j: nat, rk': seq<Key>)
    requires SameWidth(lk, w) && SameWidth(rk, w) && j < |rk|
    requires rk' == Gather(rk, SortIndices(rk))
    ensures
      var t := SeparatedOrder(lk, rk)[|lk| + j];
      Sum(Selected(MergedKeys(lk, rk), MergedOrigin(lk, rk), rk'[j])[..t + 1]) == multiset(rk'[..j + 1])[rk'[j]]
  {
    RightRowPosition(lk, rk, j);
    RightKeys(lk, rk, w);
    CountUpTo(MergedKeys(lk, rk), MergedOrigin(lk, rk), j, rk');
  }
}
