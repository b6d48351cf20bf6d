/** Groups of adjacent rows with equal keys: the masks that mark them and what a segmented
    sum over them means in terms of the keys. */
module KeyGroups {
  import opened Columns
  import opened Ordering
  import opened SegmentedScan

  ghost predicate Aligned(cols: seq<Column>, n: nat) {
    forall c :: 0 <= c < |cols| ==> |cols[c]| == n
  }

  function RowKey(cols: seq<Column>, n: nat, i: nat): (k: Key)
    requires Aligned(cols, n) && i < n
    ensures |k| == |cols| && forall c :: 0 <= c < |cols| ==> k[c] == cols[c][i]
  {
    seq(|cols|, c requires 0 <= c < |cols| => cols[c][i])
  }

  /** The row keys of n-row key columns. */
  function Rows(cols: seq<Column>, n: nat): (keys: seq<Key>)
    requires Aligned(cols, n)
    ensures |keys| == n && forall i :: 0 <= i < n ==> keys[i] == RowKey(cols, n, i)
  {
    seq(n, i requires 0 <= i < n => RowKey(cols, n, i))
  }

  /** A single key column. */
  function SingleKeys(o: Column): (r: seq<Key>)
    ensures |r| == |o| && forall i :: 0 <= i < |o| ==> r[i] == [o[i]]
  {
    seq(|o|, i requires 0 <= i < |o| => [o[i]])
  }

  /** Equal keys are adjacent, as after any sort on the keys. */
  ghost predicate Grouped(keys: seq<Key>) {
    forall i, j, k :: 0 <= i < j < k < |keys| && keys[i] == keys[k] ==> keys[j] == keys[k]
  }

  /** 0 on the first row of each group, 1 on the others. */
  function StartMask(keys: seq<Key>): (m: seq<Bit>)
    ensures |m| == |keys|
    ensures forall t {:trigger m[t]} :: 0 <= t < |m| ==> m[t] == if t > 0 && keys[t] == keys[t - 1] then 1 else 0
  {
    seq(|keys|, t requires 0 <= t < |keys| => if t > 0 && keys[t] == keys[t - 1] then 1 else 0)
  }

  /** 0 on the last row of each group, 1 on the others. */
  function ContinueMask(keys: seq<Key>): (m: seq<Bit>)
    ensures |m| == |keys|
    ensures forall t {:trigger m[t]} :: 0 <= t < |m| ==> m[t] == if t + 1 < |m| && keys[t + 1] == keys[t] then 1 else 0
  {
    seq(|keys|, t requires 0 <= t < |keys| => if t + 1 < |keys| && keys[t + 1] == keys[t] then 1 else 0)
  }

  /** The weights of the rows whose key is k, and 0 for the other rows. */
  function Selected(keys: seq<Key>, w: Column, k: Key): (s: Column)
    requires |keys| == |w|
    ensures |s| == |w| && forall u :: 0 <= u < |s| ==> s[u] == if keys[u] == k then w[u] else 0
  {
    seq(|w|, u requires 0 <= u < |w| => if keys[u] == k then w[u] else 0)
  }

  /** The total weight of the rows whose key is k. */
  function MatchSum(keys: seq<Key>, w: Column, k: Key): int
    requires |keys| == |w|
  {
    Sum(Selected(keys, w, k))
  }

  lemma {:induction false} SumOfZeros(s: seq<int>)
    requires forall u :: 0 <= u < |s| ==> s[u] == 0
    ensures Sum(s) == 0
  {
    if s != [] {
      SumOfZeros(s[..|s| - 1]);
    }
  }

  /** A segmented sum over the groups is, row by row, the weight of the earlier rows with the
      same key. */
  lemma {:induction false} RunningMatch(keys: seq<Key>, w: Column, t: nat)
    requires |keys| == |w| && t < |w| && Grouped(keys)
    ensures ScanColumn(w, StartMask(keys), SumCombine)[t] == Sum(Selected(keys, w, keys[t])[..t + 1])
  {
    SumScanStep(w, StartMask(keys), t);
    var s := Selected(keys, w, keys[t]);
    SumStep(s, t);
    if t > 0 && keys[t] == keys[t - 1] {
      RunningMatch(keys, w, t - 1);
    } else {
      SumOfZeros(s[..t]);
    }
  }

  /** On the last row of a group the segmented sum covers every row with that key. */
  lemma GroupEndMatch(keys: seq<Key>, w: Column, t: nat)
    requires |keys| == |w| && t < |w| && Grouped(keys)
    requires t + 1 < |w| ==> keys[t + 1] != keys[t]
    ensures ScanColumn(w, StartMask(keys), SumCombine)[t] == MatchSum(keys, w, keys[t])
  {
    RunningMatch(keys, w, t);
    var s := Selected(keys, w, keys[t]);
    forall u | t < u < |s| ensures s[u] == 0 {
      assert keys[t + 1] != keys[t];
    }
    SumOfZeros(s[t + 1..]);
    SumConcat(s[..t + 1], s[t + 1..]);
    assert s == s[..t + 1] + s[t + 1..];
  }

  /** Propagated back from the group end, it is the weight of all rows with the same key. */
  lemma {:induction false} ExpandedMatch(keys: seq<Key>, w: Column, t: nat)
    requires |keys| == |w| && t < |w| && Grouped(keys)
    ensures ExpandReversely(ScanColumn(w, StartMask(keys), SumCombine), ContinueMask(keys))[t]
         == MatchSum(keys, w, keys[t])
    decreases |w| - t
  {
    ExpandStep(ScanColumn(w, StartMask(keys), SumCombine), ContinueMask(keys), t);
    if t + 1 < |w| && keys[t + 1] == keys[t] {
      ExpandedMatch(keys, w, t + 1);
    } else {
      GroupEndMatch(keys, w, t);
    }
  }

  // ---- counting rows of a key

  lemma {:induction false} IndicatorSum(keys: seq<Key>, k: Key)
    ensures MatchSum(keys, Ones(|keys|), k) == multiset(keys)[k]
  {
    var n := |keys|;
    if n > 0 {
      IndicatorSum(keys[..n - 1], k);
      var s := Selected(keys, Ones(n), k);
      assert s[..n - 1] == Selected(keys[..n - 1], Ones(n - 1), k);
      assert keys == keys[..n - 1] + [keys[n - 1]];
    }
  }
}
