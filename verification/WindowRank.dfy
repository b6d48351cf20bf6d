/** RANK and PERCENT_RANK, computed twice: obliviously by mask arithmetic on sorted rows
    (engine/operator/oblivious_group_agg.cc) and in plaintext by sorting each partition and
    scattering the ranks (engine/operator/window.cc).  Both give every row one plus the number
    of rows of its partition that come strictly earlier. */
module WindowRank {
  import opened Columns
  import opened Ordering
  import opened SegmentedScan
  import opened KeyGroups
  import opened GroupAggregates

  /** 1 for the rows of r's partition with a strictly smaller order key. */
  function Earlier(part: seq<Key>, order: seq<Key>, r: nat): (e: Column)
    requires |part| == |order| && r < |part|
    ensures |e| == |part|
    ensures forall u :: 0 <= u < |e| ==> e[u] == if part[u] == part[r] && LexLess(order[u], order[r]) then 1 else 0
  {
    seq(|part|, u requires 0 <= u < |part| => if part[u] == part[r] && LexLess(order[u], order[r]) then 1 else 0)
  }

  /** SQL RANK of row r (section 6.10 of ISO/IEC 9075-2:2003). */
  function RankOf(part: seq<Key>, order: seq<Key>, r: nat): int
    requires |part| == |order| && r < |part|
  {
    1 + Sum(Earlier(part, order, r))
  }

  /** SQL PERCENT_RANK of row r. */
  function PercentRankOf(part: seq<Key>, order: seq<Key>, r: nat): real
    requires |part| == |order| && r < |part|
  {
    var total := multiset(part)[part[r]];
    if total <= 1 then 0.0 else (RankOf(part, order, r) - 1) as real / (total - 1) as real
  }

  lemma {:induction false} SumIsCount(e: Column, s: set<nat>, n: nat)
    requires n <= |e| && (forall u: nat :: u in s ==> u < n)
    requires forall u: nat :: u < n ==> e[u] == if u in s then 1 else 0
    ensures Sum(e[..n]) == |s|
  {
    if n > 0 {
      SumStep(e, n - 1);
      SumIsCount(e, s - {n - 1}, n - 1);
    } else {
      assert s == {};
    }
  }

  /** The rows of r's partition. */
  ghost function Peers(part: seq<Key>, r: nat): set<nat>
    requires r < |part|
  {
    set u: nat | u < |part| && part[u] == part[r]
  }

  /** Those that come strictly earlier. */
  ghost function Ahead(part: seq<Key>, order: seq<Key>, r: nat): set<nat>
    requires |part| == |order| && r < |part|
  {
    set u: nat | u < |part| && part[u] == part[r] && LexLess(order[u], order[r])
  }

  lemma RankMeaning(part: seq<Key>, order: seq<Key>, r: nat)
    requires |part| == |order| && r < |part|
    ensures RankOf(part, order, r) == 1 + |Ahead(part, order, r)|
  {
    var e := Earlier(part, order, r);
    SumIsCount(e, Ahead(part, order, r), |e|);
    assert e[..|e|] == e;
  }

  /** For every row the indicator of its partition is 1. */
  lemma PartitionSize(part: seq<Key>, r: nat)
    requires r < |part|
    ensures multiset(part)[part[r]] == |Peers(part, r)| >= 1
  {
    var e := Selected(part, Ones(|part|), part[r]);
    SumIsCount(e, Peers(part, r), |e|);
    assert e[..|e|] == e;
    IndicatorSum(part, part[r]);
    assert part[r] in multiset(part);
  }

  /** The percent rank is the number of rows that come strictly earlier over the number of other
      rows of the partition; a row alone in its partition has 0. */
  lemma PercentMeaning(part: seq<Key>, order: seq<Key>, r: nat, value: real, peers: set<nat>, ahead: set<nat>)
    requires |part| == |order| && r < |part| && value == PercentRankOf(part, order, r)
    requires peers == Peers(part, r) && ahead == Ahead(part, order, r)
    ensures |peers| >= 1 && (|peers| == 1 ==> value == 0.0)
    ensures |peers| > 1 ==> value == |ahead| as real / (|peers| - 1) as real
  {
    RankMeaning(part, order, r);
    PartitionSize(part, r);
  }

  /** Ranks move along with the rows. */
  lemma RankOfPermuted(part: seq<Key>, order: seq<Key>, p: seq<nat>, t: nat)
    requires |part| == |order| && IsPerm(p, |part|) && t < |p|
    ensures RankOf(Gather(part, p), Gather(order, p), t) == RankOf(part, order, p[t])
  {
    var e := Earlier(part, order, p[t]);
    assert Earlier(Gather(part, p), Gather(order, p), t) == Gather(e, p);
    GatherPerm(e, p);
    SumMultiset(Gather(e, p), e);
  }

  lemma {:induction false} SumOfInterval(e: Column, lo: nat, hi: nat, n: nat)
    requires lo <= hi <= |e| && n <= |e|
    requires forall u :: 0 <= u < |e| ==> e[u] == if lo <= u < hi then 1 else 0
    ensures Sum(e[..n]) == if n < lo then 0 else if n < hi then n - lo else hi - lo
  {
    if n > 0 {
      SumOfInterval(e, lo, hi, n - 1);
      SumStep(e, n - 1);
    }
  }

  // ---- oblivious rank

  function ObliviousRank(orderMark: seq<Bit>, partition: seq<Bit>): (r: Column)
    requires |orderMark| == |partition| > 0
    ensures |r| == |orderMark|
  {
    var count := GroupCount(orderMark, partition);
    var inner := TransferGroupMask(orderMark);
    var innerCount := GroupCount(inner, inner);
    seq(|orderMark|, t requires 0 <= t < |orderMark| => count[t] - innerCount[t] + 1)
  }

  /** Partition key followed by order key. */
  function FullKeys(part: seq<Key>, order: seq<Key>): (f: seq<Key>)
    requires |part| == |order|
    ensures |f| == |part| && forall u :: 0 <= u < |f| ==> f[u] == part[u] + order[u]
  {
    seq(|part|, u requires 0 <= u < |part| => part[u] + order[u])
  }

  ghost predicate EqualWidth(part: seq<Key>, w: nat) {
    forall u :: 0 <= u < |part| ==> |part[u]| == w
  }

  lemma {:induction false} LexConcat(a: Key, b: Key, x: Key, y: Key)
    requires |a| == |b|
    ensures LexLess(a + x, b + y) <==> LexLess(a, b) || (a == b && LexLess(x, y))
    ensures a + x == b + y <==> a == b && x == y
    decreases |a|
  {
    if a == [] {
      assert a + x == x && b + y == y;
    } else {
      assert (a + x)[1..] == a[1..] + x && (b + y)[1..] == b[1..] + y;
      assert a == [a[0]] + a[1..] && b == [b[0]] + b[1..];
      assert a + x == [a[0]] + (a[1..] + x) && b + y == [b[0]] + (b[1..] + y);
      LexConcat(a[1..], b[1..], x, y);
    }
  }

  /** Rows in ascending order of partition, then order key. */
  ghost predicate RowsAscend(part: seq<Key>, order: seq<Key>) {
    |part| == |order| && forall u, t :: 0 <= u < t < |part| ==>
      LexLess(part[u], part[t]) || (part[u] == part[t] && !LexLess(order[t], order[u]))
  }

  lemma AscendGrouped(part: seq<Key>, order: seq<Key>, w: nat)
    requires RowsAscend(part, order) && EqualWidth(part, w)
    ensures Grouped(part) && Grouped(FullKeys(part, order))
  {
    forall i, j, k | 0 <= i < j < k < |part| && part[i] == part[k] ensures part[j] == part[k] {
      LexTotal(part[i], part[j]);
    }
    var f := FullKeys(part, order);
    forall i, j, k | 0 <= i < j < k < |f| && f[i] == f[k] ensures f[j] == f[k] {
      LexConcat(part[i], part[k], order[i], order[k]);
      LexTotal(part[i], part[j]);
      LexTotal(order[i], order[j]);
    }
  }

  /** In ascending rows, the strictly earlier rows of t's partition lie between the start of
      the partition and the start of t's tie group. */
  lemma EarlierRows(part: seq<Key>, order: seq<Key>, w: nat, t: nat, u: nat)
    requires RowsAscend(part, order) && EqualWidth(part, w) && t < |part| && u < |part|
    ensures part[u] == part[t] && LexLess(order[u], order[t])
       <==> GroupStart(StartMask(part), t) <= u < GroupStart(StartMask(FullKeys(part, order)), t)
  {
    var f := FullKeys(part, order);
    AscendGrouped(part, order, w);
    GroupStartRows(part, t);
    GroupStartRows(f, t);
    LexConcat(part[u], part[t], order[u], order[t]);
    LexTotal(order[u], order[t]);
    LexTotal(part[u], part[t]);
  }

  lemma TieStartAfterPartitionStart(part: seq<Key>, order: seq<Key>, w: nat, t: nat)
    requires RowsAscend(part, order) && EqualWidth(part, w) && t < |part|
    ensures GroupStart(StartMask(part), t) <= GroupStart(StartMask(FullKeys(part, order)), t)
  {
    var f := FullKeys(part, order);
    AscendGrouped(part, order, w);
    GroupStartRows(part, t);
    GroupStartRows(f, t);
    var s := GroupStart(StartMask(f), t);
    LexConcat(part[s], part[t], order[s], order[t]);
  }

  lemma EarlierSpan(part: seq<Key>, order: seq<Key>, w: nat, t: nat)
    requires RowsAscend(part, order) && EqualWidth(part, w) && t < |part|
    ensures RankOf(part, order, t)
         == 1 + GroupStart(StartMask(FullKeys(part, order)), t) - GroupStart(StartMask(part), t)
  {
    var e := Earlier(part, order, t);
    var lo, hi := GroupStart(StartMask(part), t), GroupStart(StartMask(FullKeys(part, order)), t);
    TieStartAfterPartitionStart(part, order, w, t);
    forall u | 0 <= u < |e| ensures e[u] == if lo <= u < hi then 1 else 0 {
      EarlierRows(part, order, w, t, u);
    }
    SumOfInterval(e, lo, hi, |e|);
    assert e[..|e|] == e;
  }

  lemma MaskSpan(part: seq<Key>, f: seq<Key>, t: nat)
    requires |part| == |f| && t < |part|
    ensures ObliviousRank(EndMark(f), TransferGroupMask(EndMark(part)))[t]
         == 1 + GroupStart(StartMask(f), t) - GroupStart(StartMask(part), t)
  {
    TransferIsStartMask(part);
    TransferIsStartMask(f);
    CountFromStart(StartMask(part), t);
    CountFromStart(StartMask(f), t);
  }

  /** On sorted rows the mask arithmetic is the SQL rank. */
  lemma ObliviousRankIsRank(part: seq<Key>, order: seq<Key>, w: nat, t: nat)
    requires RowsAscend(part, order) && EqualWidth(part, w) && t < |part|
    ensures ObliviousRank(EndMark(FullKeys(part, order)), TransferGroupMask(EndMark(part)))[t] == RankOf(part, order, t)
  {
    EarlierSpan(part, order, w, t);
    MaskSpan(part, FullKeys(part, order), t);
  }

  // ---- oblivious percent rank

  function MinusOne(v: Column): (r: Column)
    ensures |r| == |v| && forall t :: 0 <= t < |v| ==> r[t] == v[t] - 1
  {
    seq(|v|, t requires 0 <= t < |v| => v[t] - 1)
  }

  function ObliviousPercentRank(orderMark: seq<Bit>, partition: seq<Bit>): (r: seq<real>)
    requires |orderMark| == |partition| > 0
    ensures |r| == |orderMark|
  {
    var count := GroupCount(orderMark, partition);
    var inner := TransferGroupMask(orderMark);
    var innerCount := GroupCount(inner, inner);
    var reversed := Flip(RevertGroupMaskTransfer(partition));
    var total := ExpandReversely(MinusOne(count), reversed);
    seq(|orderMark|, t requires 0 <= t < |orderMark| => (count[t] - innerCount[t]) as real / Max(1, total[t]) as real)
  }

  lemma {:induction false} ExpandMinusOne(v: Column, mark: seq<Bit>, t: nat)
    requires |v| == |mark| && t < |v|
    ensures ExpandReversely(MinusOne(v), mark)[t] == ExpandReversely(v, mark)[t] - 1
    decreases |v| - t
  {
    ExpandStep(v, mark, t);
    ExpandStep(MinusOne(v), mark, t);
    if t + 1 < |v| {
      ExpandMinusOne(v, mark, t + 1);
    }
  }

  /** The running count minus one, propagated back from the ends of the groups. */
  function PropagatedTotal(partition: seq<Bit>): (total: Column)
    requires partition != []
    ensures |total| == |partition|
  {
    ExpandReversely(MinusOne(ScanColumn(Ones(|partition|), partition, SumCombine)),
                    Flip(RevertGroupMaskTransfer(partition)))
  }

  /** The back-propagated count is the size of the partition. */
  lemma ExpandedTotal(part: seq<Key>, t: nat)
    requires t < |part| && Grouped(part)
    ensures PropagatedTotal(StartMask(part))[t] == multiset(part)[part[t]] - 1
  {
    TransferIsStartMask(part);
    assert Flip(EndMark(part)) == ContinueMask(part);
    ExpandMinusOne(ScanColumn(Ones(|part|), StartMask(part), SumCombine), ContinueMask(part), t);
    ExpandedMatch(part, Ones(|part|), t);
    IndicatorSum(part, part[t]);
  }

  /** Division by at least one. */
  function Share(x: int, total: int): real { x as real / Max(1, total) as real }

  /** The percent rank divides the rank minus one by the propagated partition size minus one. */
  lemma PercentRankFormula(orderMark: seq<Bit>, partition: seq<Bit>, t: nat)
    requires |orderMark| == |partition| && t < |partition|
    ensures ObliviousPercentRank(orderMark, partition)[t]
         == Share(ObliviousRank(orderMark, partition)[t] - 1, PropagatedTotal(partition)[t])
  {
  }

  lemma PercentFromRank(part: seq<Key>, order: seq<Key>, orderMark: seq<Bit>, t: nat)
    requires |part| == |order| == |orderMark| && t < |part|
    requires ObliviousRank(orderMark, StartMask(part))[t] == RankOf(part, order, t)
    requires PropagatedTotal(StartMask(part))[t] == multiset(part)[part[t]] - 1
    ensures ObliviousPercentRank(orderMark, StartMask(part))[t] == PercentRankOf(part, order, t)
  {
    var above, others := RankOf(part, order, t) - 1, multiset(part)[part[t]] - 1;
    assert ObliviousPercentRank(orderMark, StartMask(part))[t] == Share(above, others) by {
      PercentRankFormula(orderMark, StartMask(part), t);
    }
    assert PercentRankOf(part, order, t) == Share(above, others) by {
      PercentCases(part, order, t);
    }
  }

  /** On sorted rows the mask arithmetic is the SQL percent rank, also in partitions of one row. */
  lemma ObliviousPercentRankIsPercentRank(part: seq<Key>, order: seq<Key>, w: nat, t: nat)
    requires RowsAscend(part, order) && EqualWidth(part, w) && t < |part|
    ensures ObliviousPercentRank(EndMark(FullKeys(part, order)), TransferGroupMask(EndMark(part)))[t]
         == PercentRankOf(part, order, t)
  {
    TransferIsStartMask(part);
    AscendGrouped(part, order, w);
    ObliviousRankIsRank(part, order, w, t);
    ExpandedTotal(part, t);
    PercentFromRank(part, order, EndMark(FullKeys(part, order)), t);
  }

  lemma PercentCases(part: seq<Key>, order: seq<Key>, t: nat)
    requires |part| == |order| && t < |part|
    ensures PercentRankOf(part, order, t)
         == Share(RankOf(part, order, t) - 1, multiset(part)[part[t]] - 1)
  {
    if multiset(part)[part[t]] <= 1 {
      AloneIsFirst(part, order, t);
    }
  }

  lemma AloneIsFirst(part: seq<Key>, order: seq<Key>, t: nat)
    requires |part| == |order| && t < |part| && multiset(part)[part[t]] <= 1
    ensures RankOf(part, order, t) == 1
  {
    var e := Earlier(part, order, t);
    LexTotal(order[t], order[t]);
    forall u | 0 <= u < |e| ensures e[u] == 0 {
      if u != t && part[u] == part[t] {
        CountsTwice(part, if u < t then u else t, if u < t then t else u);
      }
    }
    SumOfZeros(e);
  }

  // ---- the whole table

  function TableOrder(part: seq<Key>, order: seq<Key>): (p: seq<nat>)
    requires |part| == |order|
    ensures |p| == |part| && InRange(p, |part|)
  {
    SortIndices(FullKeys(part, order))
  }

  lemma TableAscends(part: seq<Key>, order: seq<Key>, w: nat)
    requires |part| == |order| && EqualWidth(part, w)
    ensures RowsAscend(Gather(part, TableOrder(part, order)), Gather(order, TableOrder(part, order)))
  {
    var f, p := FullKeys(part, order), TableOrder(part, order);
    SortIndicesSorts(f);
    forall u, t | 0 <= u < t < |p|
      ensures LexLess(part[p[u]], part[p[t]]) || (part[p[u]] == part[p[t]] && !LexLess(order[p[t]], order[p[u]]))
    {
      assert Before(f, p[u], p[t]);
      LexConcat(part[p[u]], part[p[t]], order[p[u]], order[p[t]]);
      LexTotal(order[p[u]], order[p[t]]);
    }
  }

  lemma PercentOfPermuted(part: seq<Key>, order: seq<Key>, p: seq<nat>, t: nat)
    requires |part| == |order| && IsPerm(p, |part|) && t < |p|
    ensures PercentRankOf(Gather(part, p), Gather(order, p), t) == PercentRankOf(part, order, p[t])
  {
    RankOfPermuted(part, order, p, t);
    GatherPerm(part, p);
    assert Gather(part, p)[t] == part[p[t]];
    PercentCases(Gather(part, p), Gather(order, p), t);
    PercentCases(part, order, p[t]);
  }

  lemma TableOrderPerm(part: seq<Key>, order: seq<Key>)
    requires |part| == |order|
    ensures IsPerm(TableOrder(part, order), |part|)
  {
    SortIndicesSorts(FullKeys(part, order));
  }

  /** Sort any table by partition and order key: the oblivious rank in slot t is the SQL rank
      of the original row that the sort put there. */
  lemma SecretRank(part: seq<Key>, order: seq<Key>, w: nat, t: nat)
    requires |part| == |order| && EqualWidth(part, w) && t < |part|
    ensures
      var p := TableOrder(part, order);
      var part', order' := Gather(part, p), Gather(order, p);
      && ObliviousRank(EndMark(FullKeys(part', order')), TransferGroupMask(EndMark(part')))[t]
         == RankOf(part, order, p[t])
      && ObliviousPercentRank(EndMark(FullKeys(part', order')), TransferGroupMask(EndMark(part')))[t]
         == PercentRankOf(part, order, p[t])
  {
    var p := TableOrder(part, order);
    var part', order' := Gather(part, p), Gather(order, p);
    TableAscends(part, order, w);
    TableOrderPerm(part, order);
    ObliviousRankIsRank(part', order', w, t);
    ObliviousPercentRankIsPercentRank(part', order', w, t);
    RankOfPermuted(part, order, p, t);
    PercentOfPermuted(part, order, p, t);
  }

  /** Slot t of the oblivious RANK, by counting rows of the table. */
  lemma SecretRankCounts(part: seq<Key>, order: seq<Key>, w: nat, t: nat, p: seq<nat>, ahead: set<nat>)
    requires |part| == |order| && EqualWidth(part, w) && t < |part| && p == TableOrder(part, order)
    requires ahead == set u: nat | u < |part| && part[u] == part[p[t]] && LexLess(order[u], order[p[t]])
    ensures
      var part', order' := Gather(part, p), Gather(order, p);
      ObliviousRank(EndMark(FullKeys(part', order')), TransferGroupMask(EndMark(part')))[t] == 1 + |ahead|
  {
    SecretRank(part, order, w, t);
    RankMeaning(part, order, p[t]);
    assert ahead == Ahead(part, order, p[t]);
  }

  /** Slot t of the oblivious PERCENT_RANK, by counting rows of the table: the rows ahead over the
      other rows of the partition, and 0 for a row alone. */
  lemma SecretPercentCounts(part: seq<Key>, order: seq<Key>, w: nat, t: nat, p: seq<nat>,
                            peers: set<nat>, ahead: set<nat>)
    requires |part| == |order| && EqualWidth(part, w) && t < |part| && p == TableOrder(part, order)
    requires peers == set u: nat | u < |part| && part[u] == part[p[t]]
    requires ahead == set u: nat | u < |part| && part[u] == part[p[t]] && LexLess(order[u], order[p[t]])
    ensures
      var part', order' := Gather(part, p), Gather(order, p);
      var percent := ObliviousPercentRank(EndMark(FullKeys(part', order')), TransferGroupMask(EndMark(part')))[t];
      && |peers| >= 1 && (|peers| == 1 ==> percent == 0.0)
      && (|peers| > 1 ==> percent == |ahead| as real / (|peers| - 1) as real)
  {
    var part', order' := Gather(part, p), Gather(order, p);
    var percent := ObliviousPercentRank(EndMark(FullKeys(part', order')), TransferGroupMask(EndMark(part')))[t];
    assert percent == PercentRankOf(part, order, p[t]) by {
      SecretRank(part, order, w, t);
    }
    assert ahead == Ahead(part, order, p[t]) && peers == Peers(part, p[t]);
    PercentMeaning(part, order, p[t], percent, peers, ahead);
  }
}
