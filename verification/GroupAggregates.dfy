/** Oblivious group marks and aggregates (engine/operator/oblivious_group_mark.cc and
    engine/operator/oblivious_group_agg.cc): fixed scans that hold, on the last row of every
    key group, the aggregate over all rows with that key. */
module GroupAggregates {
  import opened Columns
  import opened Ordering
  import opened PrefixScan
  import opened SegmentedScan
  import opened KeyGroups

  // ---- ObliviousGroupMark

  /** 1 on the last row of each group. */
  function EndMark(keys: seq<Key>): (m: seq<Bit>)
    ensures |m| == |keys|
    ensures forall t {:trigger m[t]} :: 0 <= t < |m| ==> m[t] == if t + 1 < |m| && keys[t + 1] == keys[t] then 0 else 1
  {
    Flip(ContinueMask(keys))
  }

  function ColumnDiffers(col: Column): (d: seq<Bit>)
    requires col != []
    ensures |d| == |col| - 1
    ensures forall t {:trigger d[t]} :: 0 <= t < |d| ==> d[t] == if col[t] != col[t + 1] then 1 else 0
  {
    seq(|col| - 1, t requires 0 <= t < |col| - 1 => if col[t] != col[t + 1] then 1 else 0)
  }

  function OrMask(a: Bit, b: Bit): Bit { if a == 1 then 1 else b }

  /** The mark has a 1 exactly on the last row of every run of equal key rows. */
  method GroupMark(cols: seq<Column>, n: nat) returns (mark: seq<Bit>)
    requires |cols| > 0 && Aligned(cols, n)
    ensures mark == EndMark(Rows(cols, n))
  {
    if n <= 1 {
      return seq(n, _ => 1);
    }
    var result: seq<Bit> := ColumnDiffers(cols[0]);
    for i := 1 to |cols|
      invariant |result| == n - 1
      invariant forall t {:trigger result[t]} :: 0 <= t < n - 1 ==>
        (result[t] == 0 <==> forall c :: 0 <= c < i ==> cols[c][t + 1] == cols[c][t])
    {
      var cur := ColumnDiffers(cols[i]);
      result := seq(n - 1, t requires 0 <= t < n - 1 => OrMask(result[t], cur[t]));
    }
    mark := result + [1];
    forall t | 0 <= t < n - 1
      ensures mark[t] == EndMark(Rows(cols, n))[t]
    {
      var a, b := RowKey(cols, n, t + 1), RowKey(cols, n, t);
      assert a == b <==> forall c :: 0 <= c < |cols| ==> a[c] == b[c];
    }
  }

  // ---- mask shifts

  function TransferGroupMask(mark: seq<Bit>): (m: seq<Bit>)
    requires mark != []
    ensures |m| == |mark|
  {
    [0] + Flip(mark)[..|mark| - 1]
  }

  function RevertGroupMaskTransfer(m: seq<Bit>): (mark: seq<Bit>)
    requires m != []
    ensures |mark| == |m|
  {
    Flip(m[1..] + [0])
  }

  /** The shift can be undone exactly for masks whose last row ends a group. */
  lemma RevertTransfer(mark: seq<Bit>)
    requires mark != []
    ensures RevertGroupMaskTransfer(TransferGroupMask(mark)) == mark <==> mark[|mark| - 1] == 1
  {
    var r := RevertGroupMaskTransfer(TransferGroupMask(mark));
    assert r[|mark| - 1] == 1;
    assert forall t :: 0 <= t < |mark| - 1 ==> r[t] == mark[t];
  }

  /** And the other way round exactly for masks whose first row starts a group. */
  lemma TransferRevert(m: seq<Bit>)
    requires m != []
    ensures TransferGroupMask(RevertGroupMaskTransfer(m)) == m <==> m[0] == 0
  {
    var r := TransferGroupMask(RevertGroupMaskTransfer(m));
    assert r[0] == 0;
    assert forall t :: 0 < t < |m| ==> r[t] == m[t];
  }

  /** Shifting a group mark gives the start mask of the same groups. */
  lemma TransferIsStartMask(keys: seq<Key>)
    requires keys != []
    ensures TransferGroupMask(EndMark(keys)) == StartMask(keys)
    ensures RevertGroupMaskTransfer(StartMask(keys)) == EndMark(keys)
  {
    var m := TransferGroupMask(EndMark(keys));
    forall t | 0 <= t < |keys| ensures m[t] == StartMask(keys)[t] {
      if t > 0 {
        assert m[t] == 1 - EndMark(keys)[t - 1];
      }
    }
    RevertTransfer(EndMark(keys));
  }

  // ---- aggregates; group is a start mask

  function GroupSum(v: Column, group: seq<Bit>): (r: Column)
    requires |v| == |group|
    ensures |r| == |v|
  {
    ScanColumn(v, group, SumCombine)
  }

  function GroupCount(v: Column, group: seq<Bit>): (r: Column)
    requires |v| == |group|
    ensures |r| == |v|
  {
    ScanColumn(Ones(|v|), group, SumCombine)
  }

  function GroupMax(v: Column, group: seq<Bit>): (r: Column)
    requires |v| == |group|
    ensures |r| == |v|
  {
    ScanColumn(v, group, MaxCombine)
  }

  function GroupMin(v: Column, group: seq<Bit>): (r: Column)
    requires |v| == |group|
    ensures |r| == |v|
  {
    ScanColumn(v, group, MinCombine)
  }

  lemma {:induction false} CountFromStart(group: seq<Bit>, t: nat)
    requires t < |group|
    ensures ScanColumn(Ones(|group|), group, SumCombine)[t] == t + 1 - GroupStart(group, t)
  {
    SumScanStep(Ones(|group|), group, t);
    if t > 0 && group[t] == 1 {
      CountFromStart(group, t - 1);
    }
  }

  function GroupAvg(v: Column, group: seq<Bit>): (r: seq<real>)
    requires |v| == |group|
    ensures |r| == |v|
  {
    var sum, count := GroupSum(v, group), GroupCount(v, group);
    assert forall t :: 0 <= t < |v| ==> count[t] > 0 by {
      forall t | 0 <= t < |v| ensures count[t] > 0 { CountFromStart(group, t); }
    }
    seq(|v|, t requires 0 <= t < |v| => sum[t] as real / count[t] as real)
  }

  /** On the last row of a group: the sum, the number and the mean over all rows of its key. */
  lemma GroupEndSums(keys: seq<Key>, v: Column, t: nat)
    requires |keys| == |v| && t < |v| && Grouped(keys) && EndMark(keys)[t] == 1
    ensures
      var group := TransferGroupMask(EndMark(keys));
      && GroupSum(v, group)[t] == MatchSum(keys, v, keys[t])
      && GroupCount(v, group)[t] == multiset(keys)[keys[t]]
      && multiset(keys)[keys[t]] > 0
      && GroupAvg(v, group)[t] == MatchSum(keys, v, keys[t]) as real / multiset(keys)[keys[t]] as real
  {
    TransferIsStartMask(keys);
    GroupEndMatch(keys, v, t);
    GroupEndMatch(keys, Ones(|v|), t);
    IndicatorSum(keys, keys[t]);
    CountFromStart(StartMask(keys), t);
  }

  /** In adjacent groups the rows of key keys[t] up to t are those from the group start on. */
  lemma {:induction false} GroupStartRows(keys: seq<Key>, t: nat)
    requires t < |keys| && Grouped(keys)
    ensures forall u :: 0 <= u <= t ==> (keys[u] == keys[t] <==> GroupStart(StartMask(keys), t) <= u)
  {
    if t > 0 && keys[t] == keys[t - 1] {
      GroupStartRows(keys, t - 1);
    }
  }

  lemma {:induction false} MaxFold(v: Column, lo: nat, hi: nat)
    requires lo < hi <= |v|
    ensures Fold(Max, v, lo, hi) in v[lo..hi]
    ensures forall u :: lo <= u < hi ==> v[u] <= Fold(Max, v, lo, hi)
  {
    if lo + 1 < hi {
      MaxFold(v, lo, hi - 1);
      assert v[lo..hi] == v[lo..hi - 1] + [v[hi - 1]];
    }
  }

  lemma {:induction false} MinFold(v: Column, lo: nat, hi: nat)
    requires lo < hi <= |v|
    ensures Fold(Min, v, lo, hi) in v[lo..hi]
    ensures forall u :: lo <= u < hi ==> Fold(Min, v, lo, hi) <= v[u]
  {
    if lo + 1 < hi {
      MinFold(v, lo, hi - 1);
      assert v[lo..hi] == v[lo..hi - 1] + [v[hi - 1]];
    }
  }

  /** x is the value of a row with key k, and no row with that key has a larger one. */
  ghost predicate IsKeyMax(keys: seq<Key>, v: Column, k: Key, x: int)
    requires |keys| == |v|
  {
    && (exists u :: 0 <= u < |v| && keys[u] == k && v[u] == x)
    && (forall u :: 0 <= u < |v| && keys[u] == k ==> v[u] <= x)
  }

  ghost predicate IsKeyMin(keys: seq<Key>, v: Column, k: Key, x: int)
    requires |keys| == |v|
  {
    && (exists u :: 0 <= u < |v| && keys[u] == k && v[u] == x)
    && (forall u :: 0 <= u < |v| && keys[u] == k ==> x <= v[u])
  }

  /** The rows of a group that ends at t. */
  lemma GroupRows(keys: seq<Key>, t: nat)
    requires t < |keys| && Grouped(keys) && EndMark(keys)[t] == 1
    ensures forall u :: 0 <= u < |keys| ==> (keys[u] == keys[t] <==> GroupStart(StartMask(keys), t) <= u <= t)
  {
    GroupStartRows(keys, t);
    forall u | t < u < |keys| ensures keys[u] != keys[t] {
      assert keys[t + 1] != keys[t];
    }
  }

  lemma RunningExtremes(v: Column, m: seq<Bit>, t: nat)
    requires |v| == |m| && t < |v|
    ensures GroupMax(v, m)[t] == Fold(Max, v, GroupStart(m, t), t + 1)
    ensures GroupMin(v, m)[t] == Fold(Min, v, GroupStart(m, t), t + 1)
  {
    CombinersGuard();
    ScanIsGroupFold(v, m, MaxCombine, Max, t);
    ScanIsGroupFold(v, m, MinCombine, Min, t);
  }

  lemma SliceMember(v: Column, lo: nat, hi: nat, x: int) returns (u: nat)
    requires lo <= hi <= |v| && x in v[lo..hi]
    ensures lo <= u < hi && v[u] == x
  {
    var i :| 0 <= i < |v[lo..hi]| && v[lo..hi][i] == x;
    u := lo + i;
  }

  lemma KeyMaxOfRange(keys: seq<Key>, v: Column, k: Key, lo: nat, hi: nat)
    requires |keys| == |v| && lo < hi <= |v|
    requires forall u :: 0 <= u < |keys| ==> (keys[u] == k <==> lo <= u < hi)
    ensures IsKeyMax(keys, v, k, Fold(Max, v, lo, hi)) && IsKeyMin(keys, v, k, Fold(Min, v, lo, hi))
  {
    MaxFold(v, lo, hi);
    MinFold(v, lo, hi);
    var a := SliceMember(v, lo, hi, Fold(Max, v, lo, hi));
    var b := SliceMember(v, lo, hi, Fold(Min, v, lo, hi));
  }

  /** On the last row of a group: the greatest and the least value of its key. */
  lemma GroupEndExtremes(keys: seq<Key>, v: Column, t: nat)
    requires |keys| == |v| && t < |v| && Grouped(keys) && EndMark(keys)[t] == 1
    ensures IsKeyMax(keys, v, keys[t], GroupMax(v, TransferGroupMask(EndMark(keys)))[t])
    ensures IsKeyMin(keys, v, keys[t], GroupMin(v, TransferGroupMask(EndMark(keys)))[t])
  {
    TransferIsStartMask(keys);
    RunningExtremes(v, StartMask(keys), t);
    GroupRows(keys, t);
    KeyMaxOfRange(keys, v, keys[t], GroupStart(StartMask(keys), t), t + 1);
  }
}
