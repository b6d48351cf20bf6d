/** The oblivious equi-join of engine/operator/secret_join.cc.

    Library kernels enter with their mathematical contracts: SimpleSort is a stable sort,
    InvPermute moves element i to slot p[i], Shuffle is any permutation and SoPrf any function
    on the revealed slots. */
module SecretJoin {
  import opened Columns
  import opened Ordering
  import opened SegmentedScan
  import opened KeyGroups
  import opened JoinSeparation
  import opened Placement
  import opened JoinAlignment
  import opened JoinSpec
  import opened Outcomes

  // ---- columns

  function GatherAll(cols: seq<Column>, n: nat, idx: seq<nat>): (r: seq<Column>)
    requires Aligned(cols, n) && InRange(idx, n)
    ensures |r| == |cols| && Aligned(r, |idx|)
    ensures forall c :: 0 <= c < |r| ==> r[c] == Gather(cols[c], idx)
  {
    seq(|cols|, c requires 0 <= c < |cols| => Gather(cols[c], idx))
  }

  function Slices(cols: seq<Column>, n: nat, lo: nat, hi: nat): (r: seq<Column>)
    requires Aligned(cols, n) && lo <= hi <= n
    ensures |r| == |cols| && Aligned(r, hi - lo)
    ensures forall c :: 0 <= c < |r| ==> r[c] == cols[c][lo..hi]
  {
    seq(|cols|, c requires 0 <= c < |cols| => cols[c][lo..hi])
  }

  /** Key columns concatenated, row for row. */
  function Stack(top: seq<Column>, n: nat, bottom: seq<Column>, m: nat): (r: seq<Column>)
    requires |top| == |bottom| && Aligned(top, n) && Aligned(bottom, m)
    ensures |r| == |top| && Aligned(r, n + m)
    ensures forall c :: 0 <= c < |r| ==> r[c] == top[c] + bottom[c]
  {
    seq(|top|, c requires 0 <= c < |top| => top[c] + bottom[c])
  }

  /** Left payloads followed by dummies, right payloads preceded by dummies. */
  function MergePayloads(left: seq<Column>, nl: nat, right: seq<Column>, nr: nat): (r: seq<Column>)
    requires Aligned(left, nl) && Aligned(right, nr)
    ensures |r| == |left| + |right| && Aligned(r, nl + nr)
    ensures forall c :: 0 <= c < |left| ==> r[c] == left[c] + Zeros(nr)
    ensures forall c {:trigger right[c]} :: 0 <= c < |right| ==> r[|left| + c] == Zeros(nl) + right[c]
  {
    var lz, rz := Zeros(nr), Zeros(nl);
    var l := seq(|left|, c requires 0 <= c < |left| => left[c] + lz);
    var r := seq(|right|, c requires 0 <= c < |right| => rz + right[c]);
    assert Aligned(l, nl + nr) && Aligned(r, nl + nr);
    l + r
  }

  lemma StackRows(top: seq<Column>, n: nat, bottom: seq<Column>, m: nat)
    requires |top| == |bottom| && Aligned(top, n) && Aligned(bottom, m)
    ensures Rows(Stack(top, n, bottom, m), n + m) == Rows(top, n) + Rows(bottom, m)
  {
    var s, all := Stack(top, n, bottom, m), Rows(top, n) + Rows(bottom, m);
    forall i | 0 <= i < n + m ensures RowKey(s, n + m, i) == all[i] {
      assert |RowKey(s, n + m, i)| == |all[i]|;
    }
  }

  lemma GatherRows(cols: seq<Column>, n: nat, idx: seq<nat>)
    requires Aligned(cols, n) && InRange(idx, n)
    ensures Rows(GatherAll(cols, n, idx), |idx|) == Gather(Rows(cols, n), idx)
  {
    var g := GatherAll(cols, n, idx);
    forall i | 0 <= i < |idx| ensures RowKey(g, |idx|, i) == RowKey(cols, n, idx[i]) {
    }
  }

  lemma AppendColumnRows(cols: seq<Column>, n: nat, o: Column)
    requires Aligned(cols, n) && |o| == n
    ensures Aligned(cols + [o], n) && Rows(cols + [o], n) == WithLast(Rows(cols, n), o)
  {
    forall i | 0 <= i < n ensures RowKey(cols + [o], n, i) == RowKey(cols, n, i) + [o[i]] {
    }
  }

  lemma OneColumnRows(o: Column)
    ensures Aligned([o], |o|) && Rows([o], |o|) == SingleKeys(o)
  {
    forall i | 0 <= i < |o| ensures RowKey([o], |o|, i) == [o[i]] {
    }
  }

  // ---- CountKeyGroup

  /** 1 where a row agrees with the next one on every key column. */
  method AdjacentEqual(keys: seq<Column>, n: nat) returns (eq: seq<Bit>)
    requires |keys| > 0 && n > 0 && Aligned(keys, n)
    ensures |eq| == n - 1
    ensures forall t {:trigger eq[t]} :: 0 <= t < n - 1 ==>
      eq[t] == if Rows(keys, n)[t + 1] == Rows(keys, n)[t] then 1 else 0
  {
    eq := ColumnEqual(keys[0]);
    for i := 1 to |keys|
      invariant |eq| == n - 1
      invariant forall t {:trigger eq[t]} :: 0 <= t < n - 1 ==>
        (eq[t] == 1 <==> forall c :: 0 <= c < i ==> keys[c][t + 1] == keys[c][t])
    {
      var tmp := ColumnEqual(keys[i]);
      eq := seq(n - 1, t requires 0 <= t < n - 1 => AndMask(eq[t], tmp[t]));
    }
    forall t {:trigger eq[t]} | 0 <= t < n - 1
      ensures eq[t] == if Rows(keys, n)[t + 1] == Rows(keys, n)[t] then 1 else 0
    {
      var a, b := RowKey(keys, n, t + 1), RowKey(keys, n, t);
      assert a == b <==> forall c :: 0 <= c < |keys| ==> a[c] == b[c];
    }
  }

  function ColumnEqual(col: Column): (eq: seq<Bit>)
    requires col != []
    ensures |eq| == |col| - 1
    ensures forall t {:trigger eq[t]} :: 0 <= t < |eq| ==> eq[t] == if col[t + 1] == col[t] then 1 else 0
  {
    seq(|col| - 1, t requires 0 <= t < |col| - 1 => if col[t + 1] == col[t] then 1 else 0)
  }

  /** The weight of every row's key: its number of left and of right rows, and the running
      number of right rows. */
  method CountKeyGroup(keys: seq<Column>, n: nat, origin: seq<Bit>)
    returns (leftCount: Column, rightCount: Column, tmpRight: Column)
    requires |keys| > 0 && n > 0 && Aligned(keys, n) && |origin| == n
    ensures |leftCount| == |rightCount| == |tmpRight| == n
    ensures Grouped(Rows(keys, n)) ==> forall t: nat :: t < n ==>
      RowCounted(Rows(keys, n), origin, leftCount, rightCount, tmpRight, t)
  {
    ghost var rows := Rows(keys, n);
    var eq := AdjacentEqual(keys, n);
    var groupMark: seq<Bit>, shifted: seq<Bit> := [0] + eq, eq + [0];
    assert groupMark == StartMask(rows) && shifted == ContinueMask(rows);
    CombinersAssociative();
    tmpRight := ParallelScan(origin, groupMark, SumCombine);
    var tmpLeft := ParallelScan(Flip(origin), groupMark, SumCombine);
    leftCount := ExpandReversely(tmpLeft, shifted);
    rightCount := ExpandReversely(tmpRight, shifted);
    if Grouped(rows) {
      forall t: nat | t < n
        ensures RowCounted(rows, origin, leftCount, rightCount, tmpRight, t)
      {
        ExpandedMatch(rows, Flip(origin), t);
        ExpandedMatch(rows, origin, t);
        RunningMatch(rows, origin, t);
      }
    }
  }

  // ---- stages 1 and 2

  /** Both tables after separation. */
  datatype Separated = Separated(
    lsPayload: seq<Column>, lsRightCount: Column, lsMark: seq<Bit>,
    rsPayload: seq<Column>, rsTmpRight: Column, rsLeftCount: Column, rsRightCount: Column, rsMark: seq<Bit>)

  /** The result mark: left count times right count is positive. */
  function Matched(left: int, right: int): Bit { if Mul(left, right) > 0 then 1 else 0 }

  function ResultMark(left: Column, right: Column): (m: seq<Bit>)
    requires |left| == |right|
    ensures |m| == |left|
    ensures forall i :: 0 <= i < |m| ==> m[i] == Matched(left[i], right[i])
  {
    seq(|left|, i requires 0 <= i < |left| => Matched(left[i], right[i]))
  }

  /** What separation must deliver, over the row keys lk and rk of the two tables. */
  ghost predicate IsSeparated(s: Separated, lk: seq<Key>, rk: seq<Key>, lp: seq<Column>, rp: seq<Column>)
  {
    var l, r := SortIndices(lk), SortIndices(rk);
    var a, b := Gather(lk, l), Gather(rk, r);
    && Aligned(lp, |lk|) && Aligned(rp, |rk|)
    && s.lsPayload == GatherAll(lp, |lk|, l) && s.rsPayload == GatherAll(rp, |rk|, r)
    && PartnerCounts(a, b, s.lsRightCount) && PartnerCounts(b, a, s.rsLeftCount)
    && Placeable(s.lsRightCount, s.lsMark) && Placeable(s.rsLeftCount, s.rsMark)
    && |s.rsRightCount| == |s.rsTmpRight| == |rk|
    && (forall j :: 0 <= j < |rk| ==> s.rsRightCount[j] == Count(b, b[j]))
    && (forall j :: 0 <= j < |rk| ==> s.rsTmpRight[j] == Count(b[..j + 1], b[j]))
  }

  /** The counts in row t of the sorted merged table. */
  ghost predicate RowCounted(k: seq<Key>, o: seq<Bit>, left: Column, right: Column, tmp: Column, t: nat)
    requires |left| == |right| == |tmp| == |k| == |o| && t < |k|
  {
    && left[t] == MatchSum(k, Flip(o), k[t])
    && right[t] == MatchSum(k, o, k[t])
    && tmp[t] == Sum(Selected(k, o, k[t])[..t + 1])
  }

  ghost predicate MergedRowsCounted(lk: seq<Key>, rk: seq<Key>, left: Column, right: Column, tmp: Column) {
    && |left| == |right| == |tmp| == |lk| + |rk|
    && forall t: nat :: t < |lk| + |rk| ==> RowCounted(MergedKeys(lk, rk), MergedOrigin(lk, rk), left, right, tmp, t)
  }

  /** The sorted merged table. */
  ghost predicate IsMerged(lk: seq<Key>, rk: seq<Key>, payloads: seq<Column>, origin': seq<Bit>, payloads': seq<Column>,
                           left: Column, right: Column, tmp: Column)
  {
    && Aligned(payloads, |lk| + |rk|)
    && origin' == MergedOrigin(lk, rk)
    && payloads' == GatherAll(payloads, |lk| + |rk|, MergedOrder(lk, rk))
    && MergedRowsCounted(lk, rk, left, right, tmp)
  }

  /** Stage 1: merge, sort by keys and origin, count the key groups. */
  method MergeAndCount(lkCols: seq<Column>, nl: nat, rkCols: seq<Column>, nr: nat, payloads: seq<Column>)
    returns (origin': seq<Bit>, payloads': seq<Column>, left: Column, right: Column, tmp: Column)
    requires |lkCols| == |rkCols| > 0 && nl > 0 && nr > 0
    requires Aligned(lkCols, nl) && Aligned(rkCols, nr) && Aligned(payloads, nl + nr)
    ensures IsMerged(Rows(lkCols, nl), Rows(rkCols, nr), payloads, origin', payloads', left, right, tmp)
  {
    ghost var lk, rk := Rows(lkCols, nl), Rows(rkCols, nr);
    var n := nl + nr;
    var origin := Origin(nl, nr);
    var keys := Stack(lkCols, nl, rkCols, nr);
    StackRows(lkCols, nl, rkCols, nr);
    AppendColumnRows(keys, n, origin);
    var p := SortIndices(Rows(keys + [origin], n));
    assert p == MergedOrder(lk, rk);
    var keys' := GatherAll(keys, n, p);
    GatherRows(keys, n, p);
    origin' := Gather(origin, p);
    payloads' := GatherAll(payloads, n, p);
    MergedGrouped(lk, rk, |lkCols|);
    left, right, tmp := CountKeyGroup(keys', n, origin');
  }

  /** Both parts of a table split by origin, row by row. */
  ghost predicate IsSplit(s: Separated, origin: seq<Bit>, nl: nat, payloads: seq<Column>, lc: nat,
                          left: Column, right: Column, tmp: Column)
  {
    var n, q := |origin|, SortIndices(SingleKeys(origin));
    && nl <= n && |left| == |right| == |tmp| == n && Aligned(payloads, n) && lc <= |payloads|
    && s.lsPayload == Slices(GatherAll(payloads, n, q)[..lc], n, 0, nl)
    && s.rsPayload == Slices(GatherAll(payloads, n, q)[lc..], n, nl, n)
    && |s.lsRightCount| == |s.lsMark| == nl
    && |s.rsLeftCount| == |s.rsMark| == |s.rsRightCount| == |s.rsTmpRight| == n - nl
    && (forall i {:trigger s.lsRightCount[i]} {:trigger s.lsMark[i]} :: 0 <= i < nl ==>
          s.lsRightCount[i] == right[q[i]] && s.lsMark[i] == Matched(left[q[i]], right[q[i]]))
    && (forall j {:trigger s.rsLeftCount[j]} {:trigger s.rsRightCount[j]}
                 {:trigger s.rsTmpRight[j]} {:trigger s.rsMark[j]} ::
          0 <= j < n - nl ==>
            && s.rsLeftCount[j] == left[q[nl + j]] && s.rsRightCount[j] == right[q[nl + j]]
            && s.rsTmpRight[j] == tmp[q[nl + j]]
            && s.rsMark[j] == Matched(left[q[nl + j]], right[q[nl + j]]))
  }

  /** Stage 2: a stable sort on the origin mark, then a split after nl rows; the first lc
      payload columns belong to the left table. */
  method SplitByOrigin(origin: seq<Bit>, nl: nat, payloads: seq<Column>, lc: nat, left: Column, right: Column,
                       tmp: Column)
    returns (s: Separated)
    requires nl <= |origin| && |left| == |right| == |tmp| == |origin| && Aligned(payloads, |origin|) && lc <= |payloads|
    ensures IsSplit(s, origin, nl, payloads, lc, left, right, tmp)
  {
    var n := |origin|;
    OneColumnRows(origin);
    var q := SortIndices(Rows([origin], n));
    var left', right', tmp' := Gather(left, q), Gather(right, q), Gather(tmp, q);
    var mark := ResultMark(left', right');
    var sorted := GatherAll(payloads, n, q);
    s := Separated(
      Slices(sorted[..lc], n, 0, nl), right'[..nl], mark[..nl],
      Slices(sorted[lc..], n, nl, n), tmp'[nl..], left'[nl..], right'[nl..], mark[nl..]);
  }

  /** Stages 1 and 2. */
  method Separate(lkCols: seq<Column>, nl: nat, rkCols: seq<Column>, nr: nat, lp: seq<Column>, rp: seq<Column>)
    returns (s: Separated)
    requires |lkCols| == |rkCols| > 0 && nl > 0 && nr > 0
    requires Aligned(lkCols, nl) && Aligned(rkCols, nr) && Aligned(lp, nl) && Aligned(rp, nr)
    ensures IsSeparated(s, Rows(lkCols, nl), Rows(rkCols, nr), lp, rp)
  {
    var payloads := MergePayloads(lp, nl, rp, nr);
    var origin, sorted, left, right, tmp := MergeAndCount(lkCols, nl, rkCols, nr, payloads);
    s := SplitByOrigin(origin, nl, sorted, |lp|, left, right, tmp);
    SplitIsSeparated(Rows(lkCols, nl), Rows(rkCols, nr), |lkCols|, lp, rp, origin, sorted, left, right, tmp, s);
  }

  lemma SplitIsSeparated(lk: seq<Key>, rk: seq<Key>, w: nat, lp: seq<Column>, rp: seq<Column>, origin: seq<Bit>,
                         sorted: seq<Column>, left: Column, right: Column, tmp: Column, s: Separated)
    requires SameWidth(lk, w) && SameWidth(rk, w) && Aligned(lp, |lk|) && Aligned(rp, |rk|)
    requires IsMerged(lk, rk, MergePayloads(lp, |lk|, rp, |rk|), origin, sorted, left, right, tmp)
    requires IsSplit(s, origin, |lk|, sorted, |lp|, left, right, tmp)
    ensures IsSeparated(s, lk, rk, lp, rp)
  {
    SeparatedLeftPayload(lk, rk, w, lp, rp, s);
    SeparatedRightPayload(lk, rk, w, lp, rp, s);
    SeparatedLeft(lk, rk, w, left, right, tmp, s);
    SeparatedRight(lk, rk, w, left, right, tmp, s);
  }

  lemma GatherTwice<T>(x: seq<T>, p: seq<nat>, q: seq<nat>)
    requires InRange(p, |x|) && InRange(q, |p|)
    ensures Gather(Gather(x, p), q) == Gather(x, Gather(p, q))
  {
  }

  lemma LeftHalf(x: Column, l: seq<nat>, r: seq<nat>)
    requires |l| == |x| && InRange(l, |x|) && InRange(r, |r|)
    ensures InRange(l + Shift(r, |x|), |x| + |r|)
    ensures Gather(x + Zeros(|r|), l + Shift(r, |x|))[0..|x|] == Gather(x, l)
  {
  }

  lemma RightHalf(x: Column, l: seq<nat>, r: seq<nat>)
    requires |r| == |x| && InRange(l, |l|) && InRange(r, |x|)
    ensures InRange(l + Shift(r, |l|), |l| + |x|)
    ensures Gather(Zeros(|l|) + x, l + Shift(r, |l|))[|l|..|l| + |x|] == Gather(x, r)
  {
  }

  /** All payload columns in separated order. */
  function SortedPayloads(lk: seq<Key>, rk: seq<Key>, lp: seq<Column>, rp: seq<Column>): (r: seq<Column>)
    requires Aligned(lp, |lk|) && Aligned(rp, |rk|)
    ensures |r| == |lp| + |rp| && Aligned(r, |lk| + |rk|)
  {
    var n := |lk| + |rk|;
    GatherAll(GatherAll(MergePayloads(lp, |lk|, rp, |rk|), n, MergedOrder(lk, rk)), n, SeparatedOrder(lk, rk))
  }

  lemma SortedPayload(lk: seq<Key>, rk: seq<Key>, w: nat, lp: seq<Column>, rp: seq<Column>, c: nat)
    requires SameWidth(lk, w) && SameWidth(rk, w) && Aligned(lp, |lk|) && Aligned(rp, |rk|) && c < |lp| + |rp|
    ensures InRange(SortIndices(lk) + Shift(SortIndices(rk), |lk|), |lk| + |rk|)
    ensures SortedPayloads(lk, rk, lp, rp)[c]
         == Gather(MergePayloads(lp, |lk|, rp, |rk|)[c], SortIndices(lk) + Shift(SortIndices(rk), |lk|))
  {
    SeparatedRows(lk, rk, w);
    GatherTwice(MergePayloads(lp, |lk|, rp, |rk|)[c], MergedOrder(lk, rk), SeparatedOrder(lk, rk));
  }

  lemma SeparatedLeftPayload(lk: seq<Key>, rk: seq<Key>, w: nat, lp: seq<Column>, rp: seq<Column>, s: Separated)
    requires SameWidth(lk, w) && SameWidth(rk, w) && Aligned(lp, |lk|) && Aligned(rp, |rk|)
    requires s.lsPayload == Slices(SortedPayloads(lk, rk, lp, rp)[..|lp|], |lk| + |rk|, 0, |lk|)
    ensures s.lsPayload == GatherAll(lp, |lk|, SortIndices(lk))
  {
    forall c | 0 <= c < |lp| ensures s.lsPayload[c] == Gather(lp[c], SortIndices(lk)) {
      SortedPayload(lk, rk, w, lp, rp, c);
      LeftHalf(lp[c], SortIndices(lk), SortIndices(rk));
    }
  }

  lemma SeparatedRightPayload(lk: seq<Key>, rk: seq<Key>, w: nat, lp: seq<Column>, rp: seq<Column>, s: Separated)
    requires SameWidth(lk, w) && SameWidth(rk, w) && Aligned(lp, |lk|) && Aligned(rp, |rk|)
    requires s.rsPayload == Slices(SortedPayloads(lk, rk, lp, rp)[|lp|..], |lk| + |rk|, |lk|, |lk| + |rk|)
    ensures s.rsPayload == GatherAll(rp, |rk|, SortIndices(rk))
  {
    var sorted := SortedPayloads(lk, rk, lp, rp);
    forall c | 0 <= c < |rp| ensures s.rsPayload[c] == Gather(rp[c], SortIndices(rk)) {
      assert sorted[|lp|..][c] == sorted[|lp| + c];
      RightPayloadAt(lk, rk, w, lp, rp, c);
    }
  }

  lemma RightPayloadAt(lk: seq<Key>, rk: seq<Key>, w: nat, lp: seq<Column>, rp: seq<Column>, c: nat)
    requires SameWidth(lk, w) && SameWidth(rk, w) && Aligned(lp, |lk|) && Aligned(rp, |rk|) && c < |rp|
    ensures |SortedPayloads(lk, rk, lp, rp)[|lp| + c]| == |lk| + |rk|
    ensures SortedPayloads(lk, rk, lp, rp)[|lp| + c][|lk|..|lk| + |rk|] == Gather(rp[c], SortIndices(rk))
  {
    SortedPayload(lk, rk, w, lp, rp, |lp| + c);
    RightHalf(rp[c], SortIndices(lk), SortIndices(rk));
  }

  /** Row i of the separated tables has the key of row i of the two sorted tables. */
  lemma SeparatedKey(lk: seq<Key>, rk: seq<Key>, w: nat, i: nat)
    requires SameWidth(lk, w) && SameWidth(rk, w) && i < |lk| + |rk|
    ensures MergedKeys(lk, rk)[SeparatedOrder(lk, rk)[i]]
         == (Gather(lk, SortIndices(lk)) + Gather(rk, SortIndices(rk)))[i]
  {
    SeparatedRows(lk, rk, w);
    var src := SortIndices(lk) + Shift(SortIndices(rk), |lk|);
    assert MergedOrder(lk, rk)[SeparatedOrder(lk, rk)[i]] == src[i];
  }

  lemma SeparatedRowCounts(lk: seq<Key>, rk: seq<Key>, w: nat, left: Column, right: Column, tmp: Column, i: nat)
    requires SameWidth(lk, w) && SameWidth(rk, w) && i < |lk| + |rk|
    requires MergedRowsCounted(lk, rk, left, right, tmp)
    ensures
      var a, b := Gather(lk, SortIndices(lk)), Gather(rk, SortIndices(rk));
      && left[SeparatedOrder(lk, rk)[i]] == Count(a, (a + b)[i])
      && right[SeparatedOrder(lk, rk)[i]] == Count(b, (a + b)[i])
  {
    SeparatedKey(lk, rk, w, i);
    assert RowCounted(MergedKeys(lk, rk), MergedOrigin(lk, rk), left, right, tmp, SeparatedOrder(lk, rk)[i]);
    var k := MergedKeys(lk, rk)[SeparatedOrder(lk, rk)[i]];
    MergedRowCounts(lk, rk, k);
    SortKeepsCounts(lk, k);
    SortKeepsCounts(rk, k);
  }

  lemma SeparatedTmp(lk: seq<Key>, rk: seq<Key>, w: nat, left: Column, right: Column, tmp: Column, j: nat)
    requires SameWidth(lk, w) && SameWidth(rk, w) && j < |rk|
    requires MergedRowsCounted(lk, rk, left, right, tmp)
    ensures
      var b := Gather(rk, SortIndices(rk));
      tmp[SeparatedOrder(lk, rk)[|lk| + j]] == Count(b[..j + 1], b[j])
  {
    var b, t := Gather(rk, SortIndices(rk)), SeparatedOrder(lk, rk)[|lk| + j];
    assert MergedKeys(lk, rk)[t] == b[j] by {
      SeparatedKey(lk, rk, w, |lk| + j);
    }
    assert RowCounted(MergedKeys(lk, rk), MergedOrigin(lk, rk), left, right, tmp, t);
    RunningRightIndex(lk, rk, w, j, b);
  }

  /** A positive product means a positive partner count, since a row's own side counts it. */
  lemma OwnSideCounts(a: seq<Key>, i: nat, other: nat)
    requires i < |a|
    ensures Count(a, a[i]) > 0
    ensures Matched(Count(a, a[i]), other) == 1 <==> other > 0
    ensures Matched(other, Count(a, a[i])) == 1 <==> other > 0
  {
    assert a[i] in a;
    PositiveProduct(Count(a, a[i]), other);
  }

  lemma PositiveProduct(c: nat, other: nat)
    requires c > 0
    ensures Matched(c, other) == 1 <==> other > 0
    ensures Matched(other, c) == 1 <==> other > 0
  {
    MulIsProduct(c, other);
    MulIsProduct(other, c);
    if other > 0 {
      assert c * other >= other;
      assert other * c >= other;
    }
  }

  lemma SeparatedLeft(lk: seq<Key>, rk: seq<Key>, w: nat, left: Column, right: Column, tmp: Column, s: Separated)
    requires SameWidth(lk, w) && SameWidth(rk, w)
    requires MergedRowsCounted(lk, rk, left, right, tmp)
    requires |s.lsRightCount| == |s.lsMark| == |lk|
    requires forall i :: 0 <= i < |lk| ==> s.lsRightCount[i] == right[SeparatedOrder(lk, rk)[i]]
    requires forall i :: 0 <= i < |lk| ==>
      s.lsMark[i] == Matched(left[SeparatedOrder(lk, rk)[i]], right[SeparatedOrder(lk, rk)[i]])
    ensures PartnerCounts(Gather(lk, SortIndices(lk)), Gather(rk, SortIndices(rk)), s.lsRightCount)
    ensures Placeable(s.lsRightCount, s.lsMark)
  {
    var a, b := Gather(lk, SortIndices(lk)), Gather(rk, SortIndices(rk));
    forall i | 0 <= i < |lk|
      ensures s.lsRightCount[i] == Count(b, a[i])
      ensures s.lsMark[i] == 1 <==> s.lsRightCount[i] > 0
    {
      SeparatedRowCounts(lk, rk, w, left, right, tmp, i);
      OwnSideCounts(a, i, Count(b, a[i]));
    }
  }

  /** What the counting columns hold for the j-th right row, which is row t of the merged table. */
  lemma SeparatedRightRow(lk: seq<Key>, rk: seq<Key>, w: nat, left: Column, right: Column, tmp: Column, j: nat, t: nat)
    requires SameWidth(lk, w) && SameWidth(rk, w) && j < |rk| && t == SeparatedOrder(lk, rk)[|lk| + j]
    requires MergedRowsCounted(lk, rk, left, right, tmp)
    ensures
      var a, b := Gather(lk, SortIndices(lk)), Gather(rk, SortIndices(rk));
      && left[t] == Count(a, b[j]) && right[t] == Count(b, b[j]) && tmp[t] == Count(b[..j + 1], b[j])
      && (Matched(left[t], right[t]) == 1 <==> left[t] > 0)
  {
    var a, b := Gather(lk, SortIndices(lk)), Gather(rk, SortIndices(rk));
    SeparatedRowCounts(lk, rk, w, left, right, tmp, |lk| + j);
    SeparatedTmp(lk, rk, w, left, right, tmp, j);
    OwnSideCounts(b, j, Count(a, b[j]));
  }

  lemma SeparatedRight(lk: seq<Key>, rk: seq<Key>, w: nat, left: Column, right: Column, tmp: Column, s: Separated)
    requires SameWidth(lk, w) && SameWidth(rk, w)
    requires MergedRowsCounted(lk, rk, left, right, tmp)
    requires |s.rsLeftCount| == |s.rsMark| == |s.rsRightCount| == |s.rsTmpRight| == |rk|
    requires forall j {:trigger s.rsLeftCount[j]} :: 0 <= j < |rk| ==>
      s.rsLeftCount[j] == left[SeparatedOrder(lk, rk)[|lk| + j]]
    requires forall j {:trigger s.rsRightCount[j]} :: 0 <= j < |rk| ==>
      s.rsRightCount[j] == right[SeparatedOrder(lk, rk)[|lk| + j]]
    requires forall j {:trigger s.rsTmpRight[j]} :: 0 <= j < |rk| ==>
      s.rsTmpRight[j] == tmp[SeparatedOrder(lk, rk)[|lk| + j]]
    requires forall j {:trigger s.rsMark[j]} :: 0 <= j < |rk| ==>
      s.rsMark[j] == Matched(left[SeparatedOrder(lk, rk)[|lk| + j]], right[SeparatedOrder(lk, rk)[|lk| + j]])
    ensures PartnerCounts(Gather(rk, SortIndices(rk)), Gather(lk, SortIndices(lk)), s.rsLeftCount)
    ensures Placeable(s.rsLeftCount, s.rsMark)
    ensures
      var b := Gather(rk, SortIndices(rk));
      forall j :: 0 <= j < |rk| ==> s.rsRightCount[j] == Count(b, b[j]) && s.rsTmpRight[j] == Count(b[..j + 1], b[j])
  {
    var a, b := Gather(lk, SortIndices(lk)), Gather(rk, SortIndices(rk));
    forall j | 0 <= j < |rk|
      ensures s.rsLeftCount[j] == Count(a, b[j]) && s.rsRightCount[j] == Count(b, b[j])
      ensures s.rsTmpRight[j] == Count(b[..j + 1], b[j])
      ensures s.rsMark[j] == 1 <==> s.rsLeftCount[j] > 0
    {
      SeparatedRightRow(lk, rk, w, left, right, tmp, j, SeparatedOrder(lk, rk)[|lk| + j]);
    }
  }

  // ---- stages 3 and 4: one permutation per table

  /** Slots fit into m and no two rows share one. */
  lemma SlotsFit(count: Column, mark: seq<Bit>, p: Column, m: int)
    requires Placeable(count, mark) && UsedSlots(count, mark) <= m
    requires |p| == |count| && forall i :: 0 <= i < |p| ==> p[i] == Slot(count, mark, i)
    ensures 0 <= |count| <= m && 0 <= Sum(count) <= m
    ensures forall i :: 0 <= i < |p| ==> 0 <= p[i] < m
    ensures Distinct(p)
  {
    RowsFit(count, mark);
    PrefixMonotone(count, 0, |count|);
    assert count[..|count|] == count;
    forall i | 0 <= i < |p| ensures 0 <= p[i] < m {
      SlotInRange(count, mark, i);
    }
    forall i, j | 0 <= i < j < |p| ensures p[i] != p[j] {
      SlotsDistinct(count, mark, i, j);
    }
  }

  ghost function SlotOf(count: Column, mark: seq<Bit>, i: nat): nat
    requires Placeable(count, mark) && i < |count|
  {
    SlotInRange(count, mark, i);
    Slot(count, mark, i)
  }

  /** The slots of all rows of a table. */
  ghost function SlotList(count: Column, mark: seq<Bit>): (p: seq<nat>)
    requires Placeable(count, mark)
    ensures |p| == |count| && forall i :: 0 <= i < |p| ==> p[i] == Slot(count, mark, i)
  {
    seq(|count|, i requires 0 <= i < |count| => SlotOf(count, mark, i))
  }

  ghost predicate Injective(f: int -> int) {
    forall a, b :: f(a) == f(b) ==> a == b
  }

  /** Complete the slots of one table to a permutation of 0..m. */
  method PlaceTable(ghost count: Column, ghost mark: seq<Bit>, p: Column, m: nat, pi: seq<nat>, prf: int -> int)
    returns (r: Result<seq<nat>>)
    requires Placeable(count, mark) && UsedSlots(count, mark) <= m && IsPerm(pi, m)
    requires |p| == |count| && forall i :: 0 <= i < |p| ==> p[i] == Slot(count, mark, i)
    ensures r.Ok? <==> Separates(prf, SlotList(count, mark), m)
    ensures r.Ok? ==> Places(count, mark, r.value, m)
  {
    SlotsFit(count, mark, p, m);
    var slots: seq<nat> := p;
    assert slots == SlotList(count, mark);
    r := BuildPerm(slots, pi, prf);
    if r.Ok? {
      assert forall i :: 0 <= i < |p| ==> r.value[i] == r.value[..|p|][i];
    }
  }

  // ---- stage 6

  ghost predicate IsTarget(pi: seq<int>, a: seq<Key>, b: seq<Key>, cb: Column, m: nat) {
    && PartnerCounts(b, a, cb)
    && |pi| == m
    && forall j: nat :: j < m ==> pi[j] == Target(a, b, cb, j)
  }

  lemma TargetReaches(pi: seq<int>, a: seq<Key>, b: seq<Key>, ca: Column, cb: Column, m: nat, j: nat)
    requires Ascending(a) && Ascending(b) && PartnerCounts(a, b, ca) && IsTarget(pi, a, b, cb, m) && Sum(cb) <= m
    requires j < m
    ensures j in pi
  {
    EqualTotals(a, b, ca, cb);
    if j < Sum(ca) {
      var i, r, j' := Transpose(a, b, ca, cb, j);
      assert pi[j'] == j;
    } else {
      assert pi[j] == j;
    }
  }

  /** The alignment is a permutation of all slots. */
  lemma TargetIsPerm(pi: seq<int>, a: seq<Key>, b: seq<Key>, ca: Column, cb: Column, m: nat)
    requires Ascending(a) && Ascending(b) && PartnerCounts(a, b, ca) && IsTarget(pi, a, b, cb, m) && Sum(cb) <= m
    ensures forall j :: 0 <= j < m ==> 0 <= pi[j] < m
    ensures Distinct(pi)
  {
    forall j | 0 <= j < m ensures j in pi {
      TargetReaches(pi, a, b, ca, cb, m, j);
    }
    ReachesIsPerm(pi, m);
  }

  /** The expanded right columns the alignment reads. */
  datatype Expanded = Expanded(placedLeft: Column, mark: Column, tmpRight: Column, left: Column, right: Column)

  function ExpandRight(s: Separated, perm: seq<nat>, m: nat): (e: Expanded)
    requires IsPerm(perm, m)
    requires |s.rsMark| <= m && |s.rsTmpRight| <= m && |s.rsLeftCount| <= m && |s.rsRightCount| <= m
    ensures |e.placedLeft| == |e.mark| == |e.tmpRight| == |e.left| == |e.right| == m
  {
    Expanded(Distribute(s.rsLeftCount, perm, m), Expand(s.rsMark, perm, m), Expand(s.rsTmpRight, perm, m),
             Expand(s.rsLeftCount, perm, m), Expand(s.rsRightCount, perm, m))
  }

  /** pi = mark * (bi - i) + i. */
  function AlignSlot(e: Expanded, copies: Column, i: nat): int
    requires |copies| == |e.mark| == |e.tmpRight| == |e.left| == |e.right| && i < |e.mark|
  {
    var bi := AlignedSlot(i, e.tmpRight[i], e.left[i], copies[i], e.right[i]);
    Mul(e.mark[i], bi - i) + i
  }

  lemma AlignSlotCases(e: Expanded, copies: Column, i: nat)
    requires |copies| == |e.mark| == |e.tmpRight| == |e.left| == |e.right| && i < |e.mark|
    ensures e.mark[i] == 1 ==>
      AlignSlot(e, copies, i) == AlignedSlot(i, e.tmpRight[i], e.left[i], copies[i], e.right[i])
    ensures e.mark[i] == 0 ==> AlignSlot(e, copies, i) == i
  {
  }

  /** The right table is placed by perm, and its counts are those of the sorted keys. */
  ghost predicate RightPlaced(s: Separated, a: seq<Key>, b: seq<Key>, perm: seq<nat>, m: nat) {
    && Places(s.rsLeftCount, s.rsMark, perm, m) && PartnerCounts(b, a, s.rsLeftCount)
    && |s.rsTmpRight| == |s.rsRightCount| == |b|
    && (forall t {:trigger s.rsRightCount[t]} :: 0 <= t < |b| ==> s.rsRightCount[t] == Count(b, b[t]))
    && (forall t {:trigger s.rsTmpRight[t]} :: 0 <= t < |b| ==> s.rsTmpRight[t] == Count(b[..t + 1], b[t]))
  }

  /** Slot j holds the numbers of row r of b: marked, its number in its group, and the counts. */
  ghost predicate NumbersOfRow(e: Expanded, a: seq<Key>, b: seq<Key>, r: nat, j: nat)
    requires |e.mark| == |e.tmpRight| == |e.left| == |e.right| && j < |e.mark|
  {
    && r < |b| && e.mark[j] == 1 && e.tmpRight[j] == Count(b[..r + 1], b[r])
    && e.left[j] == Count(a, b[r]) && e.right[j] == Count(b, b[r])
  }

  /** Inside a block the expanded columns hold the numbers of the row that owns it. */
  lemma ExpandedNumbers(s: Separated, a: seq<Key>, b: seq<Key>, perm: seq<nat>, m: nat, j: nat)
    requires RightPlaced(s, a, b, perm, m) && j < m && j < Sum(s.rsLeftCount)
    ensures NumbersOfRow(ExpandRight(s, perm, m), a, b, Owner(s.rsLeftCount, j), j)
  {
    var cb, mark := s.rsLeftCount, s.rsMark;
    var r := Owner(cb, j);
    SumStep(cb, r);
    assert mark[r] == 1;
    ExpandedBlock(mark, cb, mark, perm, m, j);
    ExpandedBlock(s.rsTmpRight, cb, mark, perm, m, j);
    ExpandedBlock(cb, cb, mark, perm, m, j);
    ExpandedBlock(s.rsRightCount, cb, mark, perm, m, j);
  }

  lemma TargetFromNumbers(e: Expanded, copies: Column, a: seq<Key>, b: seq<Key>, cb: Column, j: nat, r: nat)
    requires |copies| == |e.mark| == |e.tmpRight| == |e.left| == |e.right| && j < |e.mark|
    requires PartnerCounts(b, a, cb) && j < Sum(cb) && r == Owner(cb, j) && copies[j] == CopyOf(cb, j)
    requires NumbersOfRow(e, a, b, r, j)
    ensures AlignSlot(e, copies, j) == Target(a, b, cb, j)
  {
    AlignSlotCases(e, copies, j);
    TargetOfSlot(a, b, cb, j, r, b[r], copies[j], e.tmpRight[j]);
  }

  lemma BehindTheBlocks(s: Separated, a: seq<Key>, b: seq<Key>, perm: seq<nat>, m: nat, j: nat)
    requires RightPlaced(s, a, b, perm, m) && Sum(s.rsLeftCount) <= j < m
    ensures ExpandRight(s, perm, m).mark[j] == 0
  {
    ExpandedTail(s.rsMark, s.rsLeftCount, s.rsMark, perm, m, j);
  }

  lemma AlignInBlock(s: Separated, a: seq<Key>, b: seq<Key>, perm: seq<nat>, m: nat, copies: Column, j: nat,
                     e: Expanded)
    requires RightPlaced(s, a, b, perm, m) && |copies| == m && j < m && e == ExpandRight(s, perm, m)
    requires copies[j] == CopyOf(s.rsLeftCount, j) && j < Sum(s.rsLeftCount)
    ensures AlignSlot(e, copies, j) == Target(a, b, s.rsLeftCount, j) && e.mark[j] == 1
  {
    ExpandedNumbers(s, a, b, perm, m, j);
    TargetFromNumbers(e, copies, a, b, s.rsLeftCount, j, Owner(s.rsLeftCount, j));
  }

  lemma AlignBehind(s: Separated, a: seq<Key>, b: seq<Key>, perm: seq<nat>, m: nat, copies: Column, j: nat, e: Expanded)
    requires RightPlaced(s, a, b, perm, m) && |copies| == m && j < m && e == ExpandRight(s, perm, m)
    requires Sum(s.rsLeftCount) <= j
    ensures AlignSlot(e, copies, j) == Target(a, b, s.rsLeftCount, j) && e.mark[j] == 0
  {
    BehindTheBlocks(s, a, b, perm, m, j);
    AlignSlotCases(e, copies, j);
  }

  ghost predicate CountsCopies(copies: Column, s: Separated, perm: seq<nat>, m: nat)
    requires IsPerm(perm, m) && |s.rsLeftCount| <= m && |s.rsMark| <= m
  {
    |copies| == m && forall j :: 0 <= j < m ==>
      copies[j] == Suffix(Difference(Distribute(s.rsLeftCount, perm, m), Expand(s.rsMark, perm, m)), j)
  }

  lemma CopiesAt(copies: Column, s: Separated, a: seq<Key>, b: seq<Key>, perm: seq<nat>, m: nat, j: nat)
    requires RightPlaced(s, a, b, perm, m) && CountsCopies(copies, s, perm, m) && j < m
    ensures copies[j] == CopyOf(s.rsLeftCount, j)
  {
    CopyNumber(s.rsLeftCount, s.rsMark, perm, m, j);
  }

  lemma AlignSlotIsTarget(s: Separated, a: seq<Key>, b: seq<Key>, perm: seq<nat>, m: nat, copies: Column, j: nat,
                          e: Expanded)
    requires RightPlaced(s, a, b, perm, m) && CountsCopies(copies, s, perm, m) && j < m && e == ExpandRight(s, perm, m)
    ensures AlignSlot(e, copies, j) == Target(a, b, s.rsLeftCount, j)
    ensures e.mark[j] == if j < Sum(s.rsLeftCount) then 1 else 0
  {
    if j < Sum(s.rsLeftCount) {
      CopiesAt(copies, s, a, b, perm, m, j);
      AlignInBlock(s, a, b, perm, m, copies, j, e);
    } else {
      AlignBehind(s, a, b, perm, m, copies, j, e);
    }
  }

  function AlignSlots(e: Expanded, copies: Column): (pi: seq<int>)
    requires |copies| == |e.mark| == |e.tmpRight| == |e.left| == |e.right|
    ensures |pi| == |copies| && forall i {:trigger pi[i]} :: 0 <= i < |pi| ==> pi[i] == AlignSlot(e, copies, i)
  {
    seq(|copies|, i requires 0 <= i < |copies| => AlignSlot(e, copies, i))
  }

  /** Stage 6: the copy-count loop and the alignment formula. */
  method AlignFormula(s: Separated, ghost a: seq<Key>, ghost b: seq<Key>, perm: seq<nat>, m: nat)
    returns (pos: seq<int>, mark: Column)
    requires RightPlaced(s, a, b, perm, m)
    ensures IsTarget(pos, a, b, s.rsLeftCount, m)
    ensures |mark| == m && forall j :: 0 <= j < m ==> mark[j] == if j < Sum(s.rsLeftCount) then 1 else 0
  {
    var e := ExpandRight(s, perm, m);
    var copies := CopyCounts(e.placedLeft, e.mark);
    pos := AlignSlots(e, copies);
    mark := e.mark;
    forall j: nat | j < m
      ensures pos[j] == Target(a, b, s.rsLeftCount, j)
      ensures mark[j] == if j < Sum(s.rsLeftCount) then 1 else 0
    {
      AlignSlotIsTarget(s, a, b, perm, m, copies, j, e);
    }
  }

  method Align(s: Separated, ghost a: seq<Key>, ghost b: seq<Key>, ghost ca: Column, perm: seq<nat>, m: nat)
    returns (pi: seq<nat>, mark: Column)
    requires Ascending(a) && Ascending(b) && PartnerCounts(a, b, ca)
    requires RightPlaced(s, a, b, perm, m)
    ensures IsPerm(pi, m) && IsTarget(pi, a, b, s.rsLeftCount, m)
    ensures |mark| == m && forall j :: 0 <= j < m ==> mark[j] == if j < Sum(s.rsLeftCount) then 1 else 0
  {
    var pos;
    pos, mark := AlignFormula(s, a, b, perm, m);
    RowsFit(s.rsLeftCount, s.rsMark);
    TargetIsPerm(pos, a, b, ca, s.rsLeftCount, m);
    pi := pos;
  }

  /** The revealed join size: the sum of the expanded result marks. */
  method JoinSize(mark: Column) returns (size: int)
    ensures size == Sum(mark)
  {
    size := 0;
    for i := 0 to |mark|
      invariant size == Sum(mark[..i])
    {
      SumStep(mark, i);
      size := size + mark[i];
    }
    assert mark[..|mark|] == mark;
  }

  lemma {:induction false} SumOfStep(mark: Column, total: nat, i: nat)
    requires i <= |mark| && total <= |mark| && forall j :: 0 <= j < |mark| ==> mark[j] == if j < total then 1 else 0
    ensures Sum(mark[..i]) == if i < total then i else total
  {
    if i > 0 {
      SumOfStep(mark, total, i - 1);
      SumStep(mark, i - 1);
    }
  }

  // ---- the operator

  datatype Joined = Joined(left: seq<Column>, right: seq<Column>)

  /** Column out lists, slot by slot, the values of col in the rows given by pick. */
  ghost predicate PicksLeft(out: Column, col: Column, pairs: seq<(nat, nat)>) {
    |out| == |pairs| && forall j :: 0 <= j < |pairs| ==> pairs[j].0 < |col| && out[j] == col[pairs[j].0]
  }

  ghost predicate PicksRight(out: Column, col: Column, pairs: seq<(nat, nat)>) {
    |out| == |pairs| && forall j :: 0 <= j < |pairs| ==> pairs[j].1 < |col| && out[j] == col[pairs[j].1]
  }

  /** Every output column carries the payload of the paired rows. */
  ghost predicate Carries(out: Joined, pairs: seq<(nat, nat)>, lp: seq<Column>, rp: seq<Column>) {
    && |out.left| == |lp| && |out.right| == |rp|
    && (forall c :: 0 <= c < |lp| ==> PicksLeft(out.left[c], lp[c], pairs))
    && (forall c :: 0 <= c < |rp| ==> PicksRight(out.right[c], rp[c], pairs))
  }

  function ExpandAll(cols: seq<Column>, n: nat, perm: seq<nat>, m: nat): (r: seq<Column>)
    requires Aligned(cols, n) && n <= m && IsPerm(perm, m)
    ensures |r| == |cols| && Aligned(r, m)
    ensures forall c :: 0 <= c < |r| ==> r[c] == Expand(cols[c], perm, m)
  {
    seq(|cols|, c requires 0 <= c < |cols| => Expand(cols[c], perm, m))
  }

  function InvPermuteAll(cols: seq<Column>, perm: seq<nat>, m: nat): (r: seq<Column>)
    requires Aligned(cols, m) && IsPerm(perm, m)
    ensures |r| == |cols| && Aligned(r, m)
    ensures forall c :: 0 <= c < |r| ==> r[c] == InvPermute(cols[c], perm)
  {
    seq(|cols|, c requires 0 <= c < |cols| => InvPermute(cols[c], perm))
  }

  lemma LeftColumn(col: Column, lk: seq<Key>, rk: seq<Key>, ca: Column, cb: Column, mark: seq<Bit>, perm: seq<nat>,
                   m: nat, pairs: seq<(nat, nat)>)
    requires |col| == |lk| && Layout(pairs, lk, rk, ca, cb) && Places(ca, mark, perm, m)
    ensures |pairs| <= m
    ensures PicksLeft(Expand(Gather(col, SortIndices(lk)), perm, m)[0..|pairs|], col, pairs)
  {
    var x := Gather(col, SortIndices(lk));
    RowsFit(ca, mark);
    forall j | 0 <= j < |pairs| ensures Expand(x, perm, m)[j] == col[pairs[j].0] {
      ExpandedBlock(x, ca, mark, perm, m, j);
    }
  }

  /** After the alignment slot j of a right column holds the row that slot j is paired with. */
  lemma AlignedRow(x: Column, a: seq<Key>, b: seq<Key>, ca: Column, cb: Column, mark: seq<Bit>, perm: seq<nat>, m: nat,
                   pi: seq<nat>, j: nat)
    requires Ascending(a) && Ascending(b) && PartnerCounts(a, b, ca) && IsTarget(pi, a, b, cb, m) && IsPerm(pi, m)
    requires |x| == |b| && j < Sum(ca) && Places(cb, mark, perm, m)
    ensures 0 <= Partner(a, b, ca, j) < |b| && j < m
    ensures InvPermute(Expand(x, perm, m), pi)[j] == x[Partner(a, b, ca, j)]
  {
    RowsFit(cb, mark);
    EqualTotals(a, b, ca, cb);
    var i, r, j' := Transpose(a, b, ca, cb, j);
    ExpandedBlock(x, cb, mark, perm, m, j');
    assert pi[j'] == j;
  }

  lemma RightSlot(x: Column, lk: seq<Key>, rk: seq<Key>, ca: Column, s: Separated, perm: seq<nat>, m: nat, pi: seq<nat>,
                  pairs: seq<(nat, nat)>, j: nat)
    requires |x| == |rk| && j < |pairs| && Layout(pairs, lk, rk, ca, s.rsLeftCount)
    requires Places(s.rsLeftCount, s.rsMark, perm, m) && IsPerm(pi, m)
    requires IsTarget(pi, Gather(lk, SortIndices(lk)), Gather(rk, SortIndices(rk)), s.rsLeftCount, m)
    ensures
      var b := Gather(rk, SortIndices(rk));
      var r := Partner(Gather(lk, SortIndices(lk)), b, ca, j);
      && 0 <= r < |rk| && j < m
      && InvPermute(Expand(x, perm, m), pi)[j] == x[r]
  {
    var a, b := Gather(lk, SortIndices(lk)), Gather(rk, SortIndices(rk));
    SortedAscending(lk);
    SortedAscending(rk);
    AlignedRow(x, a, b, ca, s.rsLeftCount, s.rsMark, perm, m, pi, j);
  }

  lemma RightColumn(col: Column, lk: seq<Key>, rk: seq<Key>, ca: Column, s: Separated, perm: seq<nat>, m: nat,
                    pi: seq<nat>, pairs: seq<(nat, nat)>)
    requires |col| == |rk| && |pairs| <= m && Layout(pairs, lk, rk, ca, s.rsLeftCount)
    requires Places(s.rsLeftCount, s.rsMark, perm, m) && IsPerm(pi, m)
    requires IsTarget(pi, Gather(lk, SortIndices(lk)), Gather(rk, SortIndices(rk)), s.rsLeftCount, m)
    ensures PicksRight(InvPermute(Expand(Gather(col, SortIndices(rk)), perm, m), pi)[0..|pairs|], col, pairs)
  {
    var x := Gather(col, SortIndices(rk));
    var y := InvPermute(Expand(x, perm, m), pi);
    forall j | 0 <= j < |pairs| ensures pairs[j].1 < |col| && y[j] == col[pairs[j].1] {
      RightSlot(x, lk, rk, ca, s, perm, m, pi, pairs, j);
    }
  }

  // ---- the size of the join

  /** Left rows times right rows, summed over the keys. */
  function KeyPairs(ks: seq<Key>, a: seq<Key>, b: seq<Key>): int {
    if ks == [] then 0
    else KeyPairs(ks[..|ks| - 1], a, b) + Mul(Count(a, ks[|ks| - 1]), Count(b, ks[|ks| - 1]))
  }

  lemma {:induction false} KeyPairsOfNone(ks: seq<Key>, b: seq<Key>)
    ensures KeyPairs(ks, [], b) == 0
  {
    if ks != [] {
      KeyPairsOfNone(ks[..|ks| - 1], b);
    }
  }

  lemma KeyTermPush(a: seq<Key>, x: Key, k: Key, b: seq<Key>)
    ensures Mul(Count(a + [x], k), Count(b, k)) == Mul(Count(a, k), Count(b, k)) + if x == k then Count(b, k) else 0
  {
    CountAppend(a, x, k);
  }

  /** One more row of key x adds its partners once, when x is among the keys. */
  lemma {:induction false} KeyPairsPush(ks: seq<Key>, a: seq<Key>, x: Key, b: seq<Key>)
    requires Distinct(ks)
    ensures KeyPairs(ks, a + [x], b) == KeyPairs(ks, a, b) + if x in ks then Count(b, x) else 0
  {
    if ks != [] {
      var n := |ks| - 1;
      KeyPairsPush(ks[..n], a, x, b);
      assert ks == ks[..n] + [ks[n]];
      KeyTermPush(a, x, ks[n], b);
    }
  }

  lemma {:induction false} PairsByKey(ks: seq<Key>, a: seq<Key>, b: seq<Key>)
    requires Distinct(ks) && forall i :: 0 <= i < |a| ==> a[i] in ks
    ensures Pairs(a, b) == KeyPairs(ks, a, b)
  {
    if a == [] {
      KeyPairsOfNone(ks, b);
    } else {
      var n := |a| - 1;
      PairsByKey(ks, a[..n], b);
      KeyPairsPush(ks, a[..n], a[n], b);
      assert a == a[..n] + [a[n]];
    }
  }

  lemma {:induction false} KeyPairsOfSorted(ks: seq<Key>, lk: seq<Key>, rk: seq<Key>)
    ensures KeyPairs(ks, Gather(lk, SortIndices(lk)), Gather(rk, SortIndices(rk))) == KeyPairs(ks, lk, rk)
  {
    if ks != [] {
      var n := |ks| - 1;
      KeyPairsOfSorted(ks[..n], lk, rk);
      SortKeepsCounts(lk, ks[n]);
      SortKeepsCounts(rk, ks[n]);
    }
  }

  /** The size of the join: over all keys, left rows times right rows. */
  lemma JoinSizeByKey(pairs: seq<(nat, nat)>, lk: seq<Key>, rk: seq<Key>, ks: seq<Key>)
    requires IsInnerJoin(pairs, lk, rk) && Distinct(ks) && forall i :: 0 <= i < |lk| ==> lk[i] in ks
    ensures |pairs| == KeyPairs(ks, lk, rk)
  {
    var a, b := Gather(lk, SortIndices(lk)), Gather(rk, SortIndices(rk));
    var ca, cb := JoinHasLayout(pairs, lk, rk);
    EqualTotals(a, b, ca, cb);
    PairsByKey(ks, a, b);
    KeyPairsOfSorted(ks, lk, rk);
  }

  // ---- when the pseudo-random functions do not collide

  ghost function MarksOf(count: Column): (mark: seq<Bit>)
    requires forall i :: 0 <= i < |count| ==> count[i] >= 0
    ensures Placeable(count, mark)
  {
    seq(|count|, i requires 0 <= i < |count| => if count[i] > 0 then 1 else 0)
  }

  lemma MarksUnique(count: Column, mark: seq<Bit>)
    requires Placeable(count, mark)
    ensures mark == MarksOf(count)
  {
  }

  lemma CountsUnique(a: seq<Key>, b: seq<Key>, count: Column)
    requires PartnerCounts(a, b, count)
    ensures count == PartnersOf(a, b)
  {
  }

  /** For every row of a table, in order of its key, the number of partners in the other one. */
  ghost function RowCounts(own: seq<Key>, other: seq<Key>): (count: Column)
    ensures forall i :: 0 <= i < |count| ==> count[i] >= 0
  {
    PartnersOf(Gather(own, SortIndices(own)), Gather(other, SortIndices(other)))
  }

  /** The slots of a table's rows. */
  ghost function TableSlots(own: seq<Key>, other: seq<Key>): seq<nat> {
    SlotList(RowCounts(own, other), MarksOf(RowCounts(own, other)))
  }

  /** The common number of slots. */
  ghost function SlotNumber(lk: seq<Key>, rk: seq<Key>): (m: nat) {
    var left, right := RowCounts(lk, rk), RowCounts(rk, lk);
    RowsFit(left, MarksOf(left));
    Max(UsedSlots(left, MarksOf(left)), UsedSlots(right, MarksOf(right)))
  }

  /** No slot of a row shares its revealed image with another slot. */
  ghost predicate CollisionFree(lk: seq<Key>, rk: seq<Key>, prfLeft: int -> int, prfRight: int -> int) {
    && Separates(prfLeft, TableSlots(lk, rk), SlotNumber(lk, rk))
    && Separates(prfRight, TableSlots(rk, lk), SlotNumber(lk, rk))
  }

  lemma SlotListDistinct(count: Column, mark: seq<Bit>)
    requires Placeable(count, mark)
    ensures Distinct(SlotList(count, mark))
  {
    forall i, j | 0 <= i < j < |count| ensures SlotList(count, mark)[i] != SlotList(count, mark)[j] {
      SlotsDistinct(count, mark, i, j);
    }
  }

  /** Injective functions never collide. */
  lemma InjectiveCollisionFree(lk: seq<Key>, rk: seq<Key>, prfLeft: int -> int, prfRight: int -> int)
    requires Injective(prfLeft) && Injective(prfRight)
    ensures CollisionFree(lk, rk, prfLeft, prfRight)
  {
    SlotListDistinct(RowCounts(lk, rk), MarksOf(RowCounts(lk, rk)));
    SlotListDistinct(RowCounts(rk, lk), MarksOf(RowCounts(rk, lk)));
    InjectiveSeparates(prfLeft, TableSlots(lk, rk), SlotNumber(lk, rk));
    InjectiveSeparates(prfRight, TableSlots(rk, lk), SlotNumber(lk, rk));
  }

  lemma SeparatedSlots(s: Separated, lk: seq<Key>, rk: seq<Key>, lp: seq<Column>, rp: seq<Column>)
    requires IsSeparated(s, lk, rk, lp, rp)
    ensures Placeable(s.lsRightCount, s.lsMark) && SlotList(s.lsRightCount, s.lsMark) == TableSlots(lk, rk)
    ensures Placeable(s.rsLeftCount, s.rsMark) && SlotList(s.rsLeftCount, s.rsMark) == TableSlots(rk, lk)
    ensures SlotNumber(lk, rk) == Max(UsedSlots(s.lsRightCount, s.lsMark), UsedSlots(s.rsLeftCount, s.rsMark))
  {
    var a, b := Gather(lk, SortIndices(lk)), Gather(rk, SortIndices(rk));
    CountsUnique(a, b, s.lsRightCount);
    CountsUnique(b, a, s.rsLeftCount);
    MarksUnique(s.lsRightCount, s.lsMark);
    MarksUnique(s.rsLeftCount, s.rsMark);
  }

  /** Stages 3 to 6 on the separated tables. */
  method JoinSeparated(s: Separated, ghost lk: seq<Key>, ghost rk: seq<Key>, lp: seq<Column>, rp: seq<Column>,
                       nl: nat, nr: nat, shuffle: nat -> seq<nat>, prfLeft: int -> int, prfRight: int -> int)
    returns (r: Result<Joined>, ghost pairs: seq<(nat, nat)>)
    requires nl == |lk| && nr == |rk| && IsSeparated(s, lk, rk, lp, rp)
    requires forall m :: IsPerm(shuffle(m), m)
    ensures IsInnerJoin(pairs, lk, rk)
    ensures r.Ok? ==> Carries(r.value, pairs, lp, rp)
    ensures r.Ok? <==> CollisionFree(lk, rk, prfLeft, prfRight)
  {
    SeparatedSlots(s, lk, rk, lp, rp);
    ghost var ca, cb := s.lsRightCount, s.rsLeftCount;
    pairs := LayoutExists(lk, rk, ca, cb);
    LayoutIsInnerJoin(pairs, lk, rk, ca, cb);
    var pl, sizeLeft := CountPosition(s.lsRightCount, s.lsMark);
    var pr, sizeRight := CountPosition(s.rsLeftCount, s.rsMark);
    var m := Max(sizeLeft, sizeRight);
    SlotsFit(s.lsRightCount, s.lsMark, pl, m);
    SlotsFit(s.rsLeftCount, s.rsMark, pr, m);
    var shuffled := shuffle(m);
    var leftPerm := PlaceTable(s.lsRightCount, s.lsMark, pl, m, shuffled, prfLeft);
    if leftPerm.Err? {
      return Err(leftPerm.error), pairs;
    }
    var rightPerm := PlaceTable(s.rsLeftCount, s.rsMark, pr, m, shuffled, prfRight);
    if rightPerm.Err? {
      return Err(rightPerm.error), pairs;
    }
    var out := Emit(s, lk, rk, lp, rp, nl, nr, leftPerm.value, rightPerm.value, m, pairs);
    r := Ok(out);
  }

  /** Stages 5 and 6: distribution, expansion, alignment, and the slice to the join size. */
  method Emit(s: Separated, ghost lk: seq<Key>, ghost rk: seq<Key>, ghost lp: seq<Column>, ghost rp: seq<Column>,
              nl: nat, nr: nat, leftPerm: seq<nat>, rightPerm: seq<nat>, m: nat, ghost pairs: seq<(nat, nat)>)
    returns (out: Joined)
    requires nl == |lk| && nr == |rk| && IsSeparated(s, lk, rk, lp, rp)
    requires Places(s.lsRightCount, s.lsMark, leftPerm, m) && Places(s.rsLeftCount, s.rsMark, rightPerm, m)
    requires Layout(pairs, lk, rk, s.lsRightCount, s.rsLeftCount)
    ensures Carries(out, pairs, lp, rp)
  {
    ghost var a, b := Gather(lk, SortIndices(lk)), Gather(rk, SortIndices(rk));
    SortedAscending(lk);
    SortedAscending(rk);
    EqualTotals(a, b, s.lsRightCount, s.rsLeftCount);
    RowsFit(s.lsRightCount, s.lsMark);
    var le := ExpandAll(s.lsPayload, nl, leftPerm, m);
    var re := ExpandAll(s.rsPayload, nr, rightPerm, m);
    var pi, mark := Align(s, a, b, s.lsRightCount, rightPerm, m);
    var rf := InvPermuteAll(re, pi, m);
    var size := JoinSize(mark);
    SumOfStep(mark, |pairs|, m);
    assert mark[..m] == mark;
    out := Joined(Slices(le, m, 0, size), Slices(rf, m, 0, size));
    forall c | 0 <= c < |lp| ensures PicksLeft(out.left[c], lp[c], pairs) {
      LeftColumn(lp[c], lk, rk, s.lsRightCount, s.rsLeftCount, s.lsMark, leftPerm, m, pairs);
    }
    forall c | 0 <= c < |rp| ensures PicksRight(out.right[c], rp[c], pairs) {
      RightColumn(rp[c], lk, rk, s.lsRightCount, s, rightPerm, m, pi, pairs);
    }
  }

  ghost predicate WellFormed(lkCols: seq<Column>, rkCols: seq<Column>, lp: seq<Column>, rp: seq<Column>) {
    && |lkCols| > 0 && |lkCols| == |rkCols| && |lp| > 0 && |rp| > 0
    && Aligned(lkCols, |lkCols[0]|) && Aligned(rkCols, |rkCols[0]|)
    && Aligned(lp, |lkCols[0]|) && Aligned(rp, |rkCols[0]|)
  }

  /** SecretJoin is the inner join: for any tables, any shuffle and any pseudo-random functions
      the output columns list each pair of rows with equal keys exactly once, ordered by key,
      left row and right row; the only other outcome is an error, reported exactly when both
      tables have rows and a function collides on the slots. */
  method Execute(lkCols: seq<Column>, rkCols: seq<Column>, lp: seq<Column>, rp: seq<Column>,
                 shuffle: nat -> seq<nat>, prfLeft: int -> int, prfRight: int -> int)
    returns (r: Result<Joined>, ghost pairs: seq<(nat, nat)>)
    requires WellFormed(lkCols, rkCols, lp, rp)
    requires forall m :: IsPerm(shuffle(m), m)
    ensures IsInnerJoin(pairs, Rows(lkCols, |lkCols[0]|), Rows(rkCols, |rkCols[0]|))
    ensures r.Ok? ==> Carries(r.value, pairs, lp, rp)
    ensures
      var lk, rk := Rows(lkCols, |lkCols[0]|), Rows(rkCols, |rkCols[0]|);
      r.Ok? <==> lk == [] || rk == [] || CollisionFree(lk, rk, prfLeft, prfRight)
  {
    var nl, nr := |lkCols[0]|, |rkCols[0]|;
    if nl == 0 || nr == 0 {
      pairs := [];
      r := Ok(Joined(Slices(lp, nl, 0, 0), Slices(rp, nr, 0, 0)));
      return;
    }
    var s := Separate(lkCols, nl, rkCols, nr, lp, rp);
    r, pairs := JoinSeparated(s, Rows(lkCols, nl), Rows(rkCols, nr), lp, rp, nl, nr, shuffle, prfLeft, prfRight);
  }
}
