/** PERCENTILE_DISC (section 10.9 of ISO/IEC 9075-2:2003) three times: obliviously per group
    (engine/operator/oblivious_group_agg.cc), in plaintext per group
    (engine/operator/group_agg.cc) and as a one-hot reduction (engine/operator/reduce.cc). */
module Percentile {
  import opened Columns
  import opened Ordering
  import opened PrefixScan
  import opened SegmentedScan
  import opened KeyGroups
  import opened GroupAggregates
  import opened Outcomes

  const EPSILON: real := 0.000000001

  function Ceil(x: real): (c: int)
    ensures (c - 1) as real < x <= c as real
  {
    -((-x).Floor)
  }

  lemma CeilUnique(x: real, c: int)
    requires (c - 1) as real < x <= c as real
    ensures Ceil(x) == c
  {
  }

  // ---- which row of an ascending group is selected

  /** The running count of the row to select in a group of c rows. */
  function TargetCount(c: int, p: real): int {
    Ceil(c as real * p)
  }

  /** The clamped index of the plaintext and of the reduce operator. */
  function PlainIndex(n: nat, p: real): int {
    var pos := Ceil(p * n as real) - 1;
    Min(Max(pos, 0), n - 1)
  }

  /** The row the oblivious operator selects: the last or first one on its fast paths. */
  function SecretIndex(n: nat, p: real): int {
    if 1.0 - p < EPSILON then n - 1
    else if p < EPSILON then 0
    else TargetCount(n, p) - 1
  }

  lemma TargetInGroup(n: nat, p: real)
    requires n > 0 && 0.0 < p <= 1.0
    ensures 1 <= TargetCount(n, p) <= n
  {
    var x := n as real * p;
    assert 0.0 < x <= n as real by {
      assert n as real * p <= n as real * 1.0;
      assert n as real > 0.0;
    }
  }

  lemma SecretIndexInRange(n: nat, p: real)
    requires n > 0 && 0.0 <= p <= 1.0
    ensures 0 <= SecretIndex(n, p) < n
  {
    if p > 0.0 {
      TargetInGroup(n, p);
    }
  }

  /** How far the percent reaches into x rows. */
  function Reach(x: real, p: real): real { x * p }

  /** A fast path is not taken too early: a percent below the epsilon must not reach past the
      first row, one above must reach the last. */
  predicate Timely(n: nat, p: real) {
    (1.0 - p < EPSILON ==> Reach(n as real, p) > n as real - 1.0) && (p < EPSILON ==> Reach(n as real, p) <= 1.0)
  }

  /** Both indices agree exactly then. */
  lemma IndicesAgree(n: nat, p: real)
    requires n > 0 && 0.0 <= p <= 1.0
    ensures SecretIndex(n, p) == PlainIndex(n, p) <==> Timely(n, p)
  {
    var x := n as real * p;
    assert p * n as real == x;
    if p > 0.0 {
      TargetInGroup(n, p);
    } else {
      assert x == 0.0;
      CeilUnique(x, 0);
    }
  }

  lemma TimelyBelowBillion(n: nat, p: real)
    requires 0 < n <= 1_000_000_000 && 0.0 <= p <= 1.0
    ensures Timely(n, p)
  {
    if 1.0 - p < EPSILON {
      NearlyAll(n as real, p, 1.0 - p);
    }
    if p < EPSILON {
      Scaled(n as real, p);
    }
  }

  /** For groups of up to 10^9 rows they always agree. */
  lemma IndicesAgreeBelowBillion(n: nat, p: real)
    requires 0 < n <= 1_000_000_000 && 0.0 <= p <= 1.0
    ensures SecretIndex(n, p) == PlainIndex(n, p)
  {
    TimelyBelowBillion(n, p);
    IndicesAgree(n, p);
  }

  lemma Distribute(x: real, p: real, q: real)
    ensures x * (p + q) == x * p + x * q
  {
  }

  lemma NearlyAll(x: real, p: real, q: real)
    requires 0.0 < x <= 1000000000.0 && p + q == 1.0 && 0.0 <= q < EPSILON
    ensures Reach(x, p) > x - 1.0
  {
    Scaled(x, q);
    Distribute(x, p, q);
  }

  lemma Scaled(x: real, q: real)
    requires 0.0 < x <= 1000000000.0 && 0.0 <= q < EPSILON
    ensures Reach(x, q) < 1.0
  {
    assert x * q <= 1000000000.0 * q;
  }

  /** Beyond that they can differ. */
  lemma IndicesDiffer()
    ensures SecretIndex(2_000_000_000, 0.0000000009) == 0
    ensures PlainIndex(2_000_000_000, 0.0000000009) == 1
  {
    CeilUnique(0.0000000009 * 2000000000.0, 2);
  }

  // ---- the oblivious operator

  function Target(p: real): int -> int {
    (c: int) => TargetCount(c, p)
  }

  function MapColumn(f: int -> int, v: Column): (r: Column)
    ensures |r| == |v| && forall t :: 0 <= t < |r| ==> r[t] == f(v[t])
  {
    seq(|v|, t requires 0 <= t < |v| => f(v[t]))
  }

  function MaskBy(m: seq<Bit>, v: Column): (r: Column)
    requires |m| == |v|
    ensures |r| == |v| && forall t :: 0 <= t < |r| ==> r[t] == if m[t] == 1 then v[t] else 0
  {
    seq(|v|, t requires 0 <= t < |v| => Masked(m[t], v[t]))
  }

  function EqualTo(a: Column, b: Column): (r: seq<Bit>)
    requires |a| == |b|
    ensures |r| == |a| && forall t :: 0 <= t < |r| ==> r[t] == if a[t] == b[t] then 1 else 0
  {
    seq(|a|, t requires 0 <= t < |a| => if a[t] == b[t] then 1 else 0)
  }

  /** The values kept by the general path: at most one per group. */
  function PercentileValues(v: Column, group: seq<Bit>, target: int -> int): (r: Column)
    requires |v| == |group| > 0
    ensures |r| == |v|
  {
    var count := GroupCount(v, group);
    var recovered := RevertGroupMaskTransfer(group);
    var index := MaskBy(recovered, MapColumn(target, count));
    var expanded := ExpandReversely(index, Flip(recovered));
    MaskBy(EqualTo(expanded, count), v)
  }

  function ObliviousPercentileDisc(v: Column, group: seq<Bit>, p: real): (r: Column)
    requires |v| == |group| > 0 && 0.0 <= p <= 1.0
    ensures |r| == |v|
  {
    if 1.0 - p < EPSILON then GroupMax(v, group)
    else if p < EPSILON then GroupMin(v, group)
    else GroupSum(PercentileValues(v, group, Target(p)), group)
  }

  /** The target computed on the last row reaches every row of the group. */
  lemma {:induction false} ExpandedTarget(keys: seq<Key>, index: Column, u: nat, t: nat)
    requires |keys| == |index| && u <= t < |keys|
    requires forall i :: u <= i < t ==> ContinueMask(keys)[i] == 1
    requires ContinueMask(keys)[t] == 0
    ensures ExpandReversely(index, ContinueMask(keys))[u] == index[t]
    decreases t - u
  {
    ExpandStep(index, ContinueMask(keys), u);
    if u < t {
      ExpandedTarget(keys, index, u + 1, t);
    }
  }

  lemma GroupContinues(keys: seq<Key>, t: nat)
    requires t < |keys|
    ensures forall i {:trigger ContinueMask(keys)[i]} ::
      GroupStart(StartMask(keys), t) <= i < t ==> ContinueMask(keys)[i] == 1
  {
    var s := GroupStart(StartMask(keys), t);
    forall i {:trigger ContinueMask(keys)[i]} | s <= i < t ensures ContinueMask(keys)[i] == 1 {
      assert StartMask(keys)[i + 1] == 1;
    }
  }

  /** The selected running count, as every row of its group sees it. */
  function SeenTarget(keys: seq<Key>, target: int -> int): (r: Column)
    ensures |r| == |keys|
  {
    ExpandReversely(MaskBy(EndMark(keys), MapColumn(target, RunningCount(keys))), ContinueMask(keys))
  }

  function RunningCount(keys: seq<Key>): (r: Column)
    ensures |r| == |keys|
  {
    ScanColumn(Ones(|keys|), StartMask(keys), SumCombine)
  }

  lemma RunningCountFrom(keys: seq<Key>, u: nat, t: nat, lo: nat)
    requires t < |keys| && lo == GroupStart(StartMask(keys), t) && lo <= u <= t
    ensures RunningCount(keys)[u] == u + 1 - lo
  {
    CountFromStart(StartMask(keys), u);
    SameGroupStart(StartMask(keys), u, t);
  }

  lemma SeenTargetValue(keys: seq<Key>, target: int -> int, t: nat, u: nat, lo: nat)
    requires t < |keys| && EndMark(keys)[t] == 1 && lo == GroupStart(StartMask(keys), t) && lo <= u <= t
    ensures SeenTarget(keys, target)[u] == target(t + 1 - lo)
  {
    GroupContinues(keys, t);
    ExpandedTarget(keys, MaskBy(EndMark(keys), MapColumn(target, RunningCount(keys))), u, t);
    RunningCountFrom(keys, t, t, lo);
  }

  lemma ValuesFormula(keys: seq<Key>, v: Column, target: int -> int)
    requires |keys| == |v| > 0
    ensures PercentileValues(v, StartMask(keys), target)
         == MaskBy(EqualTo(SeenTarget(keys, target), RunningCount(keys)), v)
  {
    TransferIsStartMask(keys);
    assert Flip(EndMark(keys)) == ContinueMask(keys);
  }

  /** Exactly one row s of the group is kept: the one with running count target(n). */
  lemma KeptRow(keys: seq<Key>, target: int -> int, t: nat, lo: nat, s: int, u: nat)
    requires t < |keys| && EndMark(keys)[t] == 1
    requires lo == GroupStart(StartMask(keys), t) && s == lo + target(t + 1 - lo) - 1 && lo <= u <= t
    ensures SeenTarget(keys, target)[u] - RunningCount(keys)[u] == s - u
  {
    SeenTargetValue(keys, target, t, u, lo);
    RunningCountFrom(keys, u, t, lo);
  }

  lemma {:induction false} SameGroupStart(m: seq<Bit>, u: nat, t: nat)
    requires t < |m| && GroupStart(m, t) <= u <= t
    ensures GroupStart(m, u) == GroupStart(m, t)
    decreases t
  {
    if u < t {
      SameGroupStart(m, u, t - 1);
    }
  }

  lemma {:induction false} FoldOfOne(v: Column, lo: nat, hi: nat, s: nat)
    requires lo < hi <= |v|
    requires forall u :: lo <= u < hi && u != s ==> v[u] == 0
    ensures Fold(Add, v, lo, hi) == if lo <= s < hi then v[s] else 0
  {
    if lo + 1 < hi {
      FoldOfOne(v, lo, hi - 1, s);
    }
  }

  lemma RunningSum(v: Column, m: seq<Bit>, t: nat)
    requires |v| == |m| && t < |v|
    ensures GroupSum(v, m)[t] == Fold(Add, v, GroupStart(m, t), t + 1)
  {
    CombinersGuard();
    ScanIsGroupFold(v, m, SumCombine, Add, t);
  }

  lemma KeptSum(kept: Column, v: Column, m: seq<Bit>, t: nat, s: nat)
    requires |kept| == |v| == |m| && t < |v| && GroupStart(m, t) <= s <= t
    requires forall u :: GroupStart(m, t) <= u <= t ==> kept[u] == if u == s then v[u] else 0
    ensures GroupSum(kept, m)[t] == v[s]
  {
    RunningSum(kept, m, t);
    FoldOfOne(kept, GroupStart(m, t), t + 1, s);
  }

  /** The general path selects the element at offset target(n) - 1, in any group. */
  lemma GeneralPath(keys: seq<Key>, v: Column, target: int -> int, t: nat, lo: nat, s: int)
    requires |keys| == |v| && t < |v| && EndMark(keys)[t] == 1
    requires lo == GroupStart(StartMask(keys), t) && s == lo + target(t + 1 - lo) - 1 && lo <= s <= t
    ensures GroupSum(PercentileValues(v, StartMask(keys), target), StartMask(keys))[t] == v[s]
  {
    ValuesFormula(keys, v, target);
    var kept := MaskBy(EqualTo(SeenTarget(keys, target), RunningCount(keys)), v);
    forall u | lo <= u <= t ensures kept[u] == if u == s then v[u] else 0 {
      KeptRow(keys, target, t, lo, s, u);
    }
    KeptSum(kept, v, StartMask(keys), t, s);
  }

  /** Values ascend inside the group that ends at t. */
  ghost predicate GroupAscends(v: Column, lo: nat, t: nat) {
    lo <= t < |v| && forall i, j :: lo <= i <= j <= t ==> v[i] <= v[j]
  }

  lemma {:induction false} AscendingFolds(v: Column, lo: nat, t: nat)
    requires GroupAscends(v, lo, t)
    ensures Fold(Max, v, lo, t + 1) == v[t] && Fold(Min, v, lo, t + 1) == v[lo]
    decreases t
  {
    if lo < t {
      AscendingFolds(v, lo, t - 1);
      assert v[t - 1] <= v[t] && v[lo] <= v[t];
    }
  }

  lemma AscendingExtremes(v: Column, m: seq<Bit>, t: nat)
    requires |v| == |m| && t < |v| && GroupAscends(v, GroupStart(m, t), t)
    ensures GroupMax(v, m)[t] == v[t] && GroupMin(v, m)[t] == v[GroupStart(m, t)]
  {
    RunningExtremes(v, m, t);
    AscendingFolds(v, GroupStart(m, t), t);
  }

  lemma TargetValue(n: nat, p: real)
    requires 1.0 - p >= EPSILON && p >= EPSILON
    ensures Target(p)(n) == SecretIndex(n, p) + 1
  {
  }

  lemma MiddlePercent(keys: seq<Key>, v: Column, p: real, t: nat, lo: nat, i: int)
    requires |keys| == |v| && t < |v| && EndMark(keys)[t] == 1 && EPSILON <= p && EPSILON <= 1.0 - p
    requires lo == GroupStart(StartMask(keys), t) && i == SecretIndex(t + 1 - lo, p) && 0 <= i <= t - lo
    ensures ObliviousPercentileDisc(v, StartMask(keys), p)[t] == v[lo + i]
  {
    TargetValue(t + 1 - lo, p);
    GeneralPath(keys, v, Target(p), t, lo, lo + i);
  }

  lemma ExtremePercent(keys: seq<Key>, v: Column, p: real, t: nat, lo: nat, i: int)
    requires |keys| == |v| && t < |v| && 0.0 <= p <= 1.0 && (1.0 - p < EPSILON || p < EPSILON)
    requires lo == GroupStart(StartMask(keys), t) && GroupAscends(v, lo, t) && i == SecretIndex(t + 1 - lo, p)
    ensures ObliviousPercentileDisc(v, StartMask(keys), p)[t] == v[lo + i]
  {
    AscendingExtremes(v, StartMask(keys), t);
  }

  /** On the last row of an ascending group stands the element that SecretIndex names. */
  lemma ObliviousPercentile(keys: seq<Key>, v: Column, p: real, t: nat, lo: nat, i: int)
    requires |keys| == |v| && t < |v| && EndMark(keys)[t] == 1 && 0.0 <= p <= 1.0
    requires lo == GroupStart(StartMask(keys), t) && GroupAscends(v, lo, t) && i == SecretIndex(t + 1 - lo, p)
    ensures 0 <= i <= t - lo && ObliviousPercentileDisc(v, TransferGroupMask(EndMark(keys)), p)[t] == v[lo + i]
  {
    TransferIsStartMask(keys);
    SecretIndexInRange(t + 1 - lo, p);
    if 1.0 - p < EPSILON || p < EPSILON {
      ExtremePercent(keys, v, p, t, lo, i);
    } else {
      MiddlePercent(keys, v, p, t, lo, i);
    }
  }

  // ---- the plaintext operator

  /** The values in ascending order; partition_nth_indices finds its pos-th element. */
  function SortValues(v: Column): (r: Column)
    ensures |r| == |v|
  {
    Gather(v, SortIndices(SingleKeys(v)))
  }

  ghost predicate AscendingValues(v: Column) {
    forall i, j :: 0 <= i < j < |v| ==> v[i] <= v[j]
  }

  lemma SortValuesSorts(v: Column)
    ensures AscendingValues(SortValues(v)) && multiset(SortValues(v)) == multiset(v)
  {
    var p, k := SortIndices(SingleKeys(v)), SingleKeys(v);
    SortIndicesSorts(k);
    GatherPerm(v, p);
    forall i, j | 0 <= i < j < |v| ensures v[p[i]] <= v[p[j]] {
      assert Before(k, p[i], p[j]);
      assert k[p[i]][1..] == [] && k[p[j]][1..] == [];
    }
  }

  lemma LastIsCommon(a: Column, b: Column, n: nat)
    requires AscendingValues(b) && 0 < n <= |a| && n <= |b| && multiset(a[..n]) == multiset(b[..n])
    ensures a[n - 1] <= b[n - 1]
  {
    assert a[n - 1] == a[..n][n - 1];
    assert a[n - 1] in multiset(b[..n]);
    var k :| 0 <= k < n && b[..n][k] == a[n - 1];
    assert b[k] == a[n - 1];
  }

  lemma DropLast(a: Column, n: nat)
    requires 0 < n <= |a|
    ensures multiset(a[..n - 1]) == multiset(a[..n]) - multiset{a[n - 1]}
  {
    assert a[..n] == a[..n - 1] + [a[n - 1]];
  }

  /** Ascending columns with the same values are equal. */
  lemma {:induction false} AscendingUnique(a: Column, b: Column, n: nat)
    requires AscendingValues(a) && AscendingValues(b)
    requires n <= |a| && n <= |b| && multiset(a[..n]) == multiset(b[..n])
    ensures forall i :: 0 <= i < n ==> a[i] == b[i]
  {
    if n > 0 {
      LastIsCommon(a, b, n);
      LastIsCommon(b, a, n);
      DropLast(a, n);
      DropLast(b, n);
      AscendingUnique(a, b, n - 1);
    }
  }

  lemma PlainIndexInRange(n: nat, p: real)
    requires n > 0
    ensures 0 <= PlainIndex(n, p) < n
  {
  }

  /** GroupPercentileDisc::AggImpl on the values of one group, in any order. */
  function GroupPercentileDisc(v: Column, p: real): Result<int> {
    if v == [] then Err("input array should not be null or empty")
    else if p < 0.0 || p > 1.0 then Err("percent should be in [0.0, 1.0]")
    else
      PlainIndexInRange(|v|, p);
      Ok(SortValues(v)[PlainIndex(|v|, p)])
  }

  /** What the plaintext operator picks from the values of a group that ascends. */
  lemma PlainPercentile(v: Column, p: real, lo: nat, t: nat, values: Column)
    requires GroupAscends(v, lo, t) && multiset(values) == multiset(v[lo..t + 1]) && 0.0 <= p <= 1.0
    ensures |values| == t + 1 - lo && 0 <= PlainIndex(|values|, p) <= t - lo
    ensures GroupPercentileDisc(values, p) == Ok(v[lo + PlainIndex(|values|, p)])
  {
    SortedSlice(v, lo, t, values);
    PlainIndexInRange(|values|, p);
  }

  /** Strictly: no value of the group occurs twice. */
  ghost predicate GroupRises(v: Column, lo: nat, t: nat) {
    lo <= t < |v| && forall i, j :: lo <= i < j <= t ==> v[i] < v[j]
  }

  lemma RisingUnique(v: Column, lo: nat, t: nat, i: nat, j: nat)
    requires GroupRises(v, lo, t) && lo <= i <= t && lo <= j <= t
    ensures v[i] == v[j] <==> i == j
  {
  }

  /** On a group without repeated values secret and plaintext operator agree exactly when no
      fast path is taken too early. */
  lemma PercentilesAgreeIff(keys: seq<Key>, v: Column, p: real, t: nat, values: Column)
    requires |keys| == |v| && t < |v| && EndMark(keys)[t] == 1 && 0.0 <= p <= 1.0
    requires GroupRises(v, GroupStart(StartMask(keys), t), t)
    requires multiset(values) == multiset(v[GroupStart(StartMask(keys), t)..t + 1])
    ensures
      GroupPercentileDisc(values, p) == Ok(ObliviousPercentileDisc(v, TransferGroupMask(EndMark(keys)), p)[t])
      <==> Timely(|values|, p)
  {
    var lo := GroupStart(StartMask(keys), t);
    PlainPercentile(v, p, lo, t, values);
    var i, k := SecretIndex(|values|, p), PlainIndex(|values|, p);
    ObliviousPercentile(keys, v, p, t, lo, i);
    RisingUnique(v, lo, t, lo + i, lo + k);
    assert i == k <==> Timely(|values|, p) by {
      IndicesAgree(|values|, p);
    }
  }

  /** Secret and plaintext operator agree on every group whose size and percent keep the fast
      paths from being taken too early, in particular on every group of up to 10^9 rows. */
  lemma PercentilesAgree(keys: seq<Key>, v: Column, p: real, t: nat, values: Column)
    requires |keys| == |v| && t < |v| && EndMark(keys)[t] == 1 && 0.0 <= p <= 1.0
    requires GroupAscends(v, GroupStart(StartMask(keys), t), t)
    requires multiset(values) == multiset(v[GroupStart(StartMask(keys), t)..t + 1])
    requires Timely(|values|, p)
    ensures GroupPercentileDisc(values, p) == Ok(ObliviousPercentileDisc(v, TransferGroupMask(EndMark(keys)), p)[t])
  {
    var lo := GroupStart(StartMask(keys), t);
    PlainPercentile(v, p, lo, t, values);
    assert SecretIndex(|values|, p) == PlainIndex(|values|, p) by {
      IndicesAgree(|values|, p);
    }
    ObliviousPercentile(keys, v, p, t, lo, SecretIndex(|values|, p));
  }

  lemma SortedSlice(v: Column, lo: nat, t: nat, values: Column)
    requires GroupAscends(v, lo, t) && multiset(values) == multiset(v[lo..t + 1])
    ensures |values| == t + 1 - lo && SortValues(values) == v[lo..t + 1]
  {
    assert |values| == |multiset(values)| == |v[lo..t + 1]|;
    SortValuesSorts(values);
    var n, srt, slice := |values|, SortValues(values), v[lo..t + 1];
    assert srt[..n] == srt && slice[..n] == slice;
    AscendingUnique(srt, slice, n);
  }

  // ---- the one-hot reduction

  function OneHot(pos: nat, n: nat): (h: seq<Bit>)
    requires pos < n
    ensures |h| == n && forall i :: 0 <= i < n ==> h[i] == if i == pos then 1 else 0
  {
    seq(n, i requires 0 <= i < n => if i == pos then 1 else 0)
  }

  /** ReducePercentileDisc::SecretReduceImpl; an empty column stays empty. */
  function ReducePercentileDisc(v: Column, p: real): (r: Column) {
    if v == [] then v else
      PlainIndexInRange(|v|, p);
      [Sum(MaskBy(OneHot(PlainIndex(|v|, p), |v|), SortValues(v)))]
  }

  lemma {:induction false} SumOfOne(v: Column, s: nat, n: nat)
    requires s < |v| && n <= |v| && forall u :: 0 <= u < |v| && u != s ==> v[u] == 0
    ensures Sum(v[..n]) == if s < n then v[s] else 0
  {
    if n > 0 {
      SumOfOne(v, s, n - 1);
      SumStep(v, n - 1);
    }
  }

  /** The one-hot sum is the element the plaintext operator picks. */
  lemma ReducePicksPlain(v: Column, p: real)
    requires 0.0 <= p <= 1.0
    ensures ReducePercentileDisc(v, p) == if v == [] then [] else [GroupPercentileDisc(v, p).value]
  {
    if v == [] {
      return;
    }
    PlainIndexInRange(|v|, p);
    var s := PlainIndex(|v|, p);
    var kept := MaskBy(OneHot(s, |v|), SortValues(v));
    SumOfOne(kept, s, |v|);
    assert kept[..|v|] == kept;
  }

  // ---- what the selected element is

  /** The row selected for a positive percent: it and the rows before reach the percent, the rows
      before alone do not. */
  ghost predicate Selects(i: int, n: nat, p: real) {
    (p > 0.0 ==> i as real < p * n as real <= (i + 1) as real) && (p == 0.0 ==> i == 0)
  }

  lemma PlainIndexBounds(n: nat, p: real)
    requires n > 0 && 0.0 <= p <= 1.0
    ensures 0 <= PlainIndex(n, p) < n
    ensures Selects(PlainIndex(n, p), n, p)
  {
    var x := p * n as real;
    assert x == n as real * p;
    if p > 0.0 {
      TargetInGroup(n, p);
    } else {
      assert x == 0.0;
      CeilUnique(x, 0);
    }
  }

  /** The rows from lo up to but not including hi. */
  ghost function Interval(lo: nat, hi: nat): (s: set<nat>)
    requires lo <= hi
    ensures |s| == hi - lo && forall u: nat :: u in s <==> lo <= u < hi
    decreases hi
  {
    if lo == hi then {} else Interval(lo, hi - 1) + {hi - 1}
  }

  lemma PrefixSize(s: seq<nat>, k: nat)
    requires Distinct(s) && k <= |s|
    ensures |Elements(s[..k])| == k
  {
    DistinctSize(s[..k]);
  }

  /** The k-th of the sorted values: more than k values are at most it, at most k are below it. */
  lemma SortedPosition(v: Column, k: nat, atMost: set<nat>, below: set<nat>)
    requires k < |v|
    requires atMost == set i: nat | i < |v| && v[i] <= SortValues(v)[k]
    requires below == set i: nat | i < |v| && v[i] < SortValues(v)[k]
    ensures SortValues(v)[k] in v && |below| <= k < |atMost|
  {
    var s, x := SortIndices(SingleKeys(v)), SortValues(v)[k];
    SortIndicesSorts(SingleKeys(v));
    SortValuesSorts(v);
    PermReaches(s, |v|);
    assert x == v[s[k]];
    forall i | i in Elements(s[..k + 1]) ensures i in atMost {
      var a :| 0 <= a < k + 1 && s[..k + 1][a] == i;
      assert SortValues(v)[a] == v[i];
    }
    forall i | i in below ensures i in Elements(s[..k]) {
      var a := IndexOf(s, i);
      assert SortValues(v)[a] == v[i];
      assert a < k;
      assert s[..k][a] == i;
    }
    PrefixSize(s, k);
    PrefixSize(s, k + 1);
    SubsetSize(Elements(s[..k + 1]), atMost);
    SubsetSize(below, Elements(s[..k]));
  }

  lemma SmallestFirst(v: Column)
    requires v != []
    ensures forall i :: 0 <= i < |v| ==> SortValues(v)[0] <= v[i]
  {
    SortValuesSorts(v);
    forall i | 0 <= i < |v| ensures SortValues(v)[0] <= v[i] {
      assert v[i] in multiset(SortValues(v));
      var a :| 0 <= a < |v| && SortValues(v)[a] == v[i];
    }
  }

  /** PERCENTILE_DISC of a group: the value x of the group such that the values up to x are at
      least the percentage p of all and the values below x are less; the least value for p == 0. */
  lemma PlainPercentileMeaning(v: Column, p: real, x: int, atMost: set<nat>, below: set<nat>)
    requires GroupPercentileDisc(v, p) == Ok(x)
    requires atMost == set i: nat | i < |v| && v[i] <= x
    requires below == set i: nat | i < |v| && v[i] < x
    ensures x in v
    ensures p > 0.0 ==> |below| as real < p * |v| as real <= |atMost| as real
    ensures p == 0.0 ==> forall i :: 0 <= i < |v| ==> x <= v[i]
  {
    var k := PlainIndex(|v|, p);
    PlainIndexBounds(|v|, p);
    SortedPosition(v, k, atMost, below);
    if p == 0.0 {
      SmallestFirst(v);
    }
  }

  /** It fails exactly on an empty group and on a percent outside [0, 1]. */
  lemma PlainPercentileFails(v: Column, p: real)
    ensures GroupPercentileDisc(v, p).Err? <==> |v| == 0 || p < 0.0 || 1.0 < p
  {
  }

  /** The one-hot reduction of a column that is not empty: one value, the percentile. */
  lemma ReducePercentileMeaning(v: Column, p: real, r: Column, atMost: set<nat>, below: set<nat>)
    requires v != [] && 0.0 <= p <= 1.0 && r == ReducePercentileDisc(v, p) && |r| > 0
    requires atMost == set i: nat | i < |v| && v[i] <= r[0]
    requires below == set i: nat | i < |v| && v[i] < r[0]
    ensures |r| == 1 && r[0] in v
    ensures p > 0.0 ==> |below| as real < p * |v| as real <= |atMost| as real
    ensures p == 0.0 ==> forall i :: 0 <= i < |v| ==> r[0] <= v[i]
  {
    ReducePicksPlain(v, p);
    PlainPercentileMeaning(v, p, r[0], atMost, below);
  }

  /** A row of an ascending block: the rows of the block up to its value, and below it. */
  lemma BlockPosition(v: Column, lo: nat, t: nat, i: nat, atMost: set<nat>, below: set<nat>)
    requires GroupAscends(v, lo, t) && lo + i <= t
    requires forall u: nat :: u in atMost <==> lo <= u <= t && v[u] <= v[lo + i]
    requires forall u: nat :: u in below <==> lo <= u <= t && v[u] < v[lo + i]
    ensures |below| <= i < |atMost|
  {
    var upTo, before := Interval(lo, lo + i + 1), Interval(lo, lo + i);
    assert upTo <= atMost && below <= before;
    SubsetSize(upTo, atMost);
    SubsetSize(below, before);
  }

  /** What that says of the row an index rule selects in an ascending block. */
  lemma BlockMeaning(v: Column, lo: nat, t: nat, i: nat, p: real, x: int, group: set<nat>, atMost: set<nat>,
                     below: set<nat>)
    requires GroupAscends(v, lo, t) && lo + i <= t && x == v[lo + i] && group == Interval(lo, t + 1)
    requires Selects(i, |group|, p)
    requires atMost == set u: nat | u in group && v[u] <= x
    requires below == set u: nat | u in group && v[u] < x
    ensures exists u :: u in group && v[u] == x
    ensures p > 0.0 ==> |below| as real < p * |group| as real <= |atMost| as real
    ensures p == 0.0 ==> forall u :: u in group ==> x <= v[u]
  {
    BlockPosition(v, lo, t, i, atMost, below);
    assert lo + i in group;
  }

  lemma GroupInterval(keys: seq<Key>, t: nat, lo: nat, group: set<nat>)
    requires t < |keys| && Grouped(keys) && EndMark(keys)[t] == 1 && lo == GroupStart(StartMask(keys), t)
    requires group == set u: nat | u < |keys| && keys[u] == keys[t]
    ensures lo <= t && group == Interval(lo, t + 1)
  {
    GroupRows(keys, t);
  }

  lemma GroupValuesAscend(keys: seq<Key>, v: Column, t: nat, lo: nat)
    requires |keys| == |v| && t < |v| && Grouped(keys) && EndMark(keys)[t] == 1 && lo == GroupStart(StartMask(keys), t)
    requires forall i, j :: 0 <= i <= j < |v| && keys[i] == keys[t] && keys[j] == keys[t] ==> v[i] <= v[j]
    ensures GroupAscends(v, lo, t)
  {
    GroupRows(keys, t);
  }

  /** In time, the row selected obliviously is the one the index rule of the plaintext names. */
  lemma TimelyIndex(n: nat, p: real)
    requires n > 0 && 0.0 <= p <= 1.0 && (n <= 1_000_000_000 || Timely(n, p))
    ensures SecretIndex(n, p) == PlainIndex(n, p)
  {
    if n <= 1_000_000_000 {
      TimelyBelowBillion(n, p);
    }
    IndicesAgree(n, p);
  }

  lemma ObliviousPicks(keys: seq<Key>, v: Column, p: real, t: nat, lo: nat, n: nat)
    requires |keys| == |v| && t < |v| && EndMark(keys)[t] == 1 && lo == GroupStart(StartMask(keys), t)
    requires GroupAscends(v, lo, t) && n == t + 1 - lo
    requires 0.0 <= p <= 1.0 && (n <= 1_000_000_000 || Timely(n, p))
    ensures 0 <= PlainIndex(n, p) <= t - lo
    ensures ObliviousPercentileDisc(v, TransferGroupMask(EndMark(keys)), p)[t] == v[lo + PlainIndex(n, p)]
  {
    TimelyIndex(n, p);
    ObliviousPercentile(keys, v, p, t, lo, SecretIndex(n, p));
  }

  lemma ObliviousBlock(keys: seq<Key>, v: Column, p: real, t: nat, group: set<nat>) returns (lo: nat, i: nat)
    requires |keys| == |v| && t < |v| && Grouped(keys) && (t + 1 < |keys| ==> keys[t + 1] != keys[t])
    requires group == set u: nat | u < |keys| && keys[u] == keys[t]
    requires forall i, j :: 0 <= i <= j < |v| && keys[i] == keys[t] && keys[j] == keys[t] ==> v[i] <= v[j]
    requires 0.0 <= p <= 1.0 && (|group| <= 1_000_000_000 || Timely(|group|, p))
    ensures GroupAscends(v, lo, t) && lo + i <= t && group == Interval(lo, t + 1) && Selects(i, |group|, p)
    ensures ObliviousPercentileDisc(v, TransferGroupMask(EndMark(keys)), p)[t] == v[lo + i]
  {
    lo := GroupStart(StartMask(keys), t);
    GroupInterval(keys, t, lo, group);
    GroupValuesAscend(keys, v, t, lo);
    ObliviousPicks(keys, v, p, t, lo, |group|);
    PlainIndexBounds(|group|, p);
    i := PlainIndex(|group|, p);
  }

  /** The oblivious operator on the last row of a group whose values ascend: the same element, over
      the rows with that key, whenever no fast path is taken too early. */
  lemma ObliviousPercentileMeaning(keys: seq<Key>, v: Column, p: real, t: nat, x: int, group: set<nat>,
                                   atMost: set<nat>, below: set<nat>)
    requires |keys| == |v| && t < |v| && Grouped(keys) && (t + 1 < |keys| ==> keys[t + 1] != keys[t])
    requires group == set u: nat | u < |keys| && keys[u] == keys[t]
    requires forall i, j :: 0 <= i <= j < |v| && keys[i] == keys[t] && keys[j] == keys[t] ==> v[i] <= v[j]
    requires 0.0 <= p <= 1.0 && (|group| <= 1_000_000_000 || Timely(|group|, p))
    requires x == ObliviousPercentileDisc(v, TransferGroupMask(EndMark(keys)), p)[t]
    requires atMost == set u: nat | u in group && v[u] <= x
    requires below == set u: nat | u in group && v[u] < x
    ensures exists u :: u in group && v[u] == x
    ensures p > 0.0 ==> |below| as real < p * |group| as real <= |atMost| as real
    ensures p == 0.0 ==> forall u :: u in group ==> x <= v[u]
  {
    var lo, i := ObliviousBlock(keys, v, p, t, group);
    BlockMeaning(v, lo, t, i, p, x, group, atMost, below);
  }
}
