/** The work-efficient parallel scan of engine/util/prefix_sum.cc.

    A scan runs an up-sweep and a down-sweep over the column; each level combines many pairs
    of cells at once.  For an associative combiner the result is the sequential running fold,
    whatever the length of the column.  The combiner takes the LATER cell first, as the source
    does. */
module PrefixScan {

  ghost predicate Associative<T(!new)>(f: (T, T) -> T) {
    forall a, b, c {:trigger f(f(a, b), c)} :: f(f(a, b), c) == f(a, f(b, c))
  }

  /** The sequential meaning of a scan: cells lo..hi combined from left to right. */
  function Fold<T>(f: (T, T) -> T, x: seq<T>, lo: nat, hi: nat): T
    requires lo < hi <= |x|
    decreases hi
  {
    if hi == lo + 1 then x[lo] else f(x[hi - 1], Fold(f, x, lo, hi - 1))
  }

  lemma {:induction false} FoldSplit<T(!new)>(f: (T, T) -> T, x: seq<T>, lo: nat, mid: nat, hi: nat)
    requires Associative(f)
    requires lo < mid < hi <= |x|
    ensures Fold(f, x, lo, hi) == f(Fold(f, x, mid, hi), Fold(f, x, lo, mid))
    decreases hi
  {
    if mid + 1 < hi {
      FoldSplit(f, x, lo, mid, hi - 1);
      assert f(f(x[hi - 1], Fold(f, x, mid, hi - 1)), Fold(f, x, lo, mid)) == Fold(f, x, lo, hi);
    }
  }

  function Pow2(i: nat): (p: nat)
    ensures p > 0
  {
    if i == 0 then 1 else 2 * Pow2(i - 1)
  }

  /** absl::bit_width: the number of binary digits of n. */
  function BitWidth(n: nat): (k: nat)
    ensures n < Pow2(k)
    ensures k > 0 ==> Pow2(k - 1) <= n
  {
    if n == 0 then 0 else 1 + BitWidth(n / 2)
  }

  /** c is a multiple of h, by repeated subtraction. */
  predicate Multiple(c: nat, h: nat)
    requires h > 0
  {
    if c < h then c == 0 else Multiple(c - h, h)
  }

  /** Cell t is start, start + stride, start + 2 stride, ... */
  predicate OnLevel(t: nat, start: nat, stride: nat)
    requires stride > 0
  {
    start <= t && Multiple(t - start, stride)
  }

  lemma {:induction false} MultipleShift(a: nat, b: nat, h: nat)
    requires h > 0 && Multiple(a, h)
    ensures Multiple(a + b, h) <==> Multiple(b, h)
    decreases a
  {
    if a >= h {
      MultipleShift(a - h, b, h);
      assert a + b - h == a - h + b;
    }
  }

  /** A multiple of h is a multiple of 2h, or becomes one after one more step back. */
  lemma {:induction false} EvenOrOdd(c: nat, h: nat)
    requires h > 0
    ensures Multiple(c, 2 * h) ==> Multiple(c, h)
    ensures Multiple(c, 2 * h) && c > 0 ==> c >= 2 * h && Multiple(c - h, h)
    ensures Multiple(c, h) && !Multiple(c, 2 * h) ==> c >= h && Multiple(c - h, 2 * h)
    ensures c >= h && Multiple(c - h, 2 * h) ==> Multiple(c, h) && !Multiple(c, 2 * h)
    decreases c
  {
    if c >= 2 * h {
      EvenOrOdd(c - 2 * h, h);
      assert Multiple(c, h) == Multiple(c - h, h) == Multiple(c - h - h, h);
      assert c - h - h == c - 2 * h;
      if c >= 3 * h {
        assert Multiple(c - h, 2 * h) == Multiple(c - h - 2 * h, 2 * h);
        assert c - h - 2 * h == c - 2 * h - h;
      }
    } else if c >= h {
      assert Multiple(c, h) == Multiple(c - h, h) == (c == h);
    }
  }

  /** The largest power of two up to Pow2(i) that divides c: how many cells, ending at the
      c-th, one cell covers after i up-sweep levels. */
  function Span(c: nat, i: nat): (s: nat)
    requires c > 0
    ensures 0 < s <= c
  {
    if i == 0 then 1
    else if Multiple(c, Pow2(i)) then Pow2(i)
    else Span(c, i - 1)
  }

  lemma {:induction false} SpanOfMultiple(c: nat, l: nat, i: nat)
    requires c > 0 && l <= i
    requires Multiple(c, Pow2(l)) && (l < i ==> !Multiple(c, Pow2(l + 1)))
    ensures Span(c, i) == Pow2(l)
    decreases i
  {
    if l < i {
      if Multiple(c, Pow2(i)) && l + 1 < i {
        DividesDown(c, l + 1, i);
      }
      SpanOfMultiple(c, l, i - 1);
    }
  }

  lemma {:induction false} DividesDown(c: nat, l: nat, i: nat)
    requires c > 0 && l <= i && Multiple(c, Pow2(i))
    ensures Multiple(c, Pow2(l))
    decreases i
  {
    if l < i {
      EvenOrOdd(c, Pow2(i - 1));
      DividesDown(c, l, i - 1);
    }
  }

  lemma NotMultipleBelow(c: nat, h: nat)
    requires 0 < c < h
    ensures !Multiple(c, h)
  {
  }

  /** A power of two at most Pow2(i) is its own span. */
  lemma SpanOfPower(l: nat, i: nat)
    requires l <= i
    ensures Span(Pow2(l), i) == Pow2(l)
  {
    NotMultipleBelow(Pow2(l), Pow2(l + 1));
    assert Multiple(Pow2(l), Pow2(l));
    SpanOfMultiple(Pow2(l), l, i);
  }

  /** The index pairs of one level: every stride-th cell from start on, each with the cell
      half a stride before it. */
  method LevelIndices(start: nat, stride: nat, half: nat, n: nat) returns (first: seq<nat>, second: seq<nat>)
    requires stride > 0 && half <= start
    ensures |first| == |second|
    ensures forall r :: 0 <= r < |first| ==> first[r] < n && second[r] + half == first[r]
    ensures forall r, s :: 0 <= r < s < |first| ==> first[r] < first[s]
    ensures forall j: nat :: j in first <==> j < n && OnLevel(j, start, stride)
  {
    first, second := [], [];
    var j := start;
    while j < n
      invariant OnLevel(j, start, stride)
      invariant |first| == |second|
      invariant forall r :: 0 <= r < |first| ==> first[r] < n && first[r] < j && second[r] + half == first[r]
      invariant forall r, s :: 0 <= r < s < |first| ==> first[r] < first[s]
      invariant forall i: nat :: i in first <==> i < n && i < j && OnLevel(i, start, stride)
      decreases n + stride - j
    {
      StrideGap(start, j, stride);
      first, second := first + [j], second + [j - half];
      j := j + stride;
    }
  }

  lemma StrideGap(start: nat, j: nat, stride: nat)
    requires stride > 0 && OnLevel(j, start, stride)
    ensures forall i: nat :: j < i <= j + stride ==> (OnLevel(i, start, stride) <==> i == j + stride)
  {
    forall i: nat | j < i <= j + stride
      ensures OnLevel(i, start, stride) <==> i == j + stride
    {
      MultipleShift(j - start, i - j, stride);
      assert j - start + (i - j) == i - start;
    }
  }

  /** One level: gather both cells of every pair, combine, scatter over the later cell. */
  method CombinePairs<T>(x: seq<T>, f: (T, T) -> T, first: seq<nat>, second: seq<nat>) returns (y: seq<T>)
    requires |first| == |second|
    requires forall r :: 0 <= r < |first| ==> first[r] < |x| && second[r] < |x|
    requires forall r, s :: 0 <= r < s < |first| ==> first[r] < first[s]
    ensures |y| == |x|
    ensures forall r :: 0 <= r < |first| ==> y[first[r]] == f(x[first[r]], x[second[r]])
    ensures forall t: nat :: t < |x| && t !in first ==> y[t] == x[t]
  {
    y := x;
    for r := 0 to |first|
      invariant |y| == |x|
      invariant forall s :: 0 <= s < r ==> y[first[s]] == f(x[first[s]], x[second[s]])
      invariant forall t: nat :: t < |x| && t !in first[..r] ==> y[t] == x[t]
    {
      assert first[..r + 1] == first[..r] + [first[r]];
      y := y[first[r] := f(x[first[r]], x[second[r]])];
    }
    assert first[..|first|] == first;
  }

  /** The first cell that cell t covers after i up-sweep levels. */
  function SweptFrom(i: nat, t: nat): nat {
    t + 1 - Span(t + 1, i)
  }

  /** The column after i up-sweep levels. */
  function Swept<T>(f: (T, T) -> T, x: seq<T>, i: nat): (y: seq<T>)
    ensures |y| == |x|
  {
    seq(|x|, t requires 0 <= t < |x| => Fold(f, x, SweptFrom(i, t), t + 1))
  }

  /** The first cell that cell t covers once multiples of Pow2(l) are finished. */
  function FinishedFrom(k: nat, l: nat, t: nat): (lo: nat)
    ensures lo <= t
  {
    if Multiple(t + 1, Pow2(l)) then 0 else SweptFrom(k, t)
  }

  /** The column during the down-sweep. */
  function Finished<T>(f: (T, T) -> T, x: seq<T>, k: nat, l: nat): (y: seq<T>)
    ensures |y| == |x|
  {
    seq(|x|, t requires 0 <= t < |x| => Fold(f, x, FinishedFrom(k, l, t), t + 1))
  }

  /** The two cells a pair combines: neighbouring blocks of Pow2(i - 1). */
  lemma PairSpans(i: nat, t: nat)
    requires i > 0 && Multiple(t + 1, Pow2(i))
    ensures t + 1 >= 2 * Pow2(i - 1) > Pow2(i - 1)
    ensures SweptFrom(i - 1, t) == t + 1 - Pow2(i - 1)
    ensures SweptFrom(i - 1, t - Pow2(i - 1)) == t + 1 - 2 * Pow2(i - 1) == SweptFrom(i, t)
  {
    var h, c := Pow2(i - 1), t + 1;
    EvenOrOdd(c, h);
    SpanOfMultiple(c, i - 1, i - 1);
    SpanOfMultiple(c - h, i - 1, i - 1);
  }

  lemma UpStep<T(!new)>(f: (T, T) -> T, x: seq<T>, i: nat, t: nat)
    requires Associative(f) && i > 0 && t < |x|
    requires Multiple(t + 1, Pow2(i))
    ensures t >= Pow2(i - 1)
    ensures f(Swept(f, x, i - 1)[t], Swept(f, x, i - 1)[t - Pow2(i - 1)]) == Swept(f, x, i)[t]
  {
    var h, c := Pow2(i - 1), t + 1;
    PairSpans(i, t);
    FoldSplit(f, x, c - 2 * h, c - h, c);
  }

  lemma DownStep<T(!new)>(f: (T, T) -> T, x: seq<T>, k: nat, i: nat, t: nat)
    requires Associative(f) && 0 < i <= k && t < |x|
    requires Multiple(t + 1, Pow2(i - 1)) && !Multiple(t + 1, Pow2(i)) && t + 1 != Pow2(i - 1)
    ensures t + 1 >= 3 * Pow2(i - 1)
    ensures f(Finished(f, x, k, i)[t], Finished(f, x, k, i)[t - Pow2(i - 1)]) == Finished(f, x, k, i - 1)[t]
  {
    var h, c := Pow2(i - 1), t + 1;
    EvenOrOdd(c, h);
    SpanOfMultiple(c, i - 1, k);
    FoldSplit(f, x, 0, c - h, c);
  }

  /** Multiples of Pow2(k - 1) are finished once the up-sweep is over. */
  lemma SweptIsFinished<T>(f: (T, T) -> T, x: seq<T>, k: nat)
    requires k > 0 && |x| <= Pow2(k)
    ensures Swept(f, x, k) == Finished(f, x, k, k - 1)
  {
    forall t: nat | t < |x|
      ensures SweptFrom(k, t) == FinishedFrom(k, k - 1, t)
    {
      var h, c := Pow2(k - 1), t + 1;
      EvenOrOdd(c, h);
      if Multiple(c, h) && !Multiple(c, 2 * h) {
        SpanOfPower(k - 1, k);
      }
    }
  }

  /** The sequential scan. */
  function RunningFold<T>(f: (T, T) -> T, x: seq<T>): (y: seq<T>)
    ensures |y| == |x|
  {
    seq(|x|, t requires 0 <= t < |x| => Fold(f, x, 0, t + 1))
  }

  /** Both sweeps together compute the sequential scan of any column. */
  method Scan<T(!new)>(x: seq<T>, f: (T, T) -> T) returns (y: seq<T>)
    requires Associative(f)
    ensures y == RunningFold(f, x)
  {
    if |x| < 2 {
      ShortScan(f, x);
      return x;
    }
    var k := BitWidth(|x| - 1);
    y := UpSweep(x, f, k);
    SweptIsFinished(f, x, k);
    y := DownSweep(x, y, f, k);
    AllFinished(f, x, k);
  }

  method UpSweep<T(!new)>(x: seq<T>, f: (T, T) -> T, k: nat) returns (y: seq<T>)
    requires Associative(f)
    ensures y == Swept(f, x, k)
  {
    y := x;
    NothingSwept(f, x);
    for i := 1 to k + 1
      invariant y == Swept(f, x, i - 1)
    {
      y := UpLevel(x, y, f, i);
    }
  }

  method DownSweep<T(!new)>(x: seq<T>, swept: seq<T>, f: (T, T) -> T, k: nat) returns (y: seq<T>)
    requires Associative(f) && k > 0 && swept == Finished(f, x, k, k - 1)
    ensures y == Finished(f, x, k, 0)
  {
    y := swept;
    var i := k - 1;
    while i > 0
      invariant 0 <= i < k
      invariant y == Finished(f, x, k, i)
    {
      y := DownLevel(x, y, f, k, i);
      i := i - 1;
    }
  }

  lemma NothingSwept<T>(f: (T, T) -> T, x: seq<T>)
    ensures x == Swept(f, x, 0)
  {
  }

  lemma ShortScan<T>(f: (T, T) -> T, x: seq<T>)
    requires |x| < 2
    ensures x == RunningFold(f, x)
  {
  }

  lemma AllFinished<T>(f: (T, T) -> T, x: seq<T>, k: nat)
    ensures Finished(f, x, k, 0) == RunningFold(f, x)
  {
    forall t: nat | t < |x|
      ensures FinishedFrom(k, 0, t) == 0
    {
      MultipleOfOne(t + 1);
    }
  }

  lemma {:induction false} MultipleOfOne(c: nat)
    ensures Multiple(c, 1)
  {
    if c > 0 {
      MultipleOfOne(c - 1);
    }
  }

  /** One level of either sweep, seen cell by cell. */
  method CombineLevel<T>(x: seq<T>, f: (T, T) -> T, start: nat, stride: nat, half: nat) returns (y: seq<T>)
    requires stride > 0 && half <= start
    ensures |y| == |x|
    ensures forall t: nat {:trigger y[t]} :: t < |x| ==>
      y[t] == if OnLevel(t, start, stride) then f(x[t], x[t - half]) else x[t]
  {
    var first, second := LevelIndices(start, stride, half, |x|);
    y := CombinePairs(x, f, first, second);
    forall t: nat {:trigger y[t]} | t < |x|
      ensures y[t] == if OnLevel(t, start, stride) then f(x[t], x[t - half]) else x[t]
    {
      if t in first {
        var r :| 0 <= r < |first| && first[r] == t;
      }
    }
  }

  method UpLevel<T(!new)>(ghost x: seq<T>, y0: seq<T>, f: (T, T) -> T, i: nat) returns (y: seq<T>)
    requires Associative(f) && i > 0 && y0 == Swept(f, x, i - 1)
    ensures y == Swept(f, x, i)
  {
    var h := Pow2(i - 1);
    y := CombineLevel(y0, f, 2 * h - 1, 2 * h, h);
    forall t: nat | t < |x|
      ensures y[t] == Swept(f, x, i)[t]
    {
      assert t >= 2 * h - 1 ==> t + 1 - 2 * h == t - (2 * h - 1);
      if Multiple(t + 1, 2 * h) {
        UpStep(f, x, i, t);
      }
    }
  }

  method DownLevel<T(!new)>(ghost x: seq<T>, y0: seq<T>, f: (T, T) -> T, ghost k: nat, i: nat) returns (y: seq<T>)
    requires Associative(f) && 0 < i <= k && y0 == Finished(f, x, k, i)
    ensures y == Finished(f, x, k, i - 1)
  {
    var h := Pow2(i - 1);
    y := CombineLevel(y0, f, 3 * h - 1, 2 * h, h);
    forall t: nat | t < |x|
      ensures y[t] == Finished(f, x, k, i - 1)[t]
    {
      DownMembers(t, h);
      EvenOrOdd(t + 1, h);
      if OnLevel(t, 3 * h - 1, 2 * h) {
        DownStep(f, x, k, i, t);
      } else if t + 1 == h {
        SpanOfPower(i - 1, k);
      }
    }
  }

  lemma DownMembers(t: nat, h: nat)
    requires h > 0
    ensures Multiple(t + 1, h) && !Multiple(t + 1, 2 * h) && t + 1 != h
       <==> OnLevel(t, 3 * h - 1, 2 * h)
  {
    EvenOrOdd(t + 1, h);
  }
}
