/** The plaintext window operators of engine/operator/window.cc: collect the rows of each
    partition, sort them, number the tie groups and scatter the ranks back. */
module PlainRank {
  import opened Columns
  import opened Ordering
  import opened SegmentedScan
  import opened KeyGroups
  import opened GroupAggregates
  import opened WindowRank
  import opened Partitions
  import opened Outcomes

  /** s puts the rows in ascending order, ties in any order. */
  ghost predicate Sorts(rows: seq<Key>, s: seq<nat>) {
    && IsPerm(s, |rows|)
    && forall a, b :: 0 <= a < b < |s| ==> !LexLess(rows[s[b]], rows[s[a]])
  }

  /** One partition for all rows. */
  function Unpartitioned(n: nat): (p: seq<Key>)
    ensures |p| == n && forall i :: 0 <= i < n ==> p[i] == []
  {
    seq(n, _ => [])
  }

  lemma SortedIsGrouped(rows: seq<Key>, s: seq<nat>)
    requires Sorts(rows, s)
    ensures Grouped(Gather(rows, s))
  {
    var srt := Gather(rows, s);
    forall i, j, k | 0 <= i < j < k < |srt| && srt[i] == srt[k] ensures srt[j] == srt[k] {
      LexTotal(srt[i], srt[j]);
    }
  }

  /** The position where the tie group of the a-th sorted row starts. */
  function TieStart(rows: seq<Key>, s: seq<nat>, a: nat): nat
    requires InRange(s, |rows|) && a < |s|
  {
    if a > 0 && rows[s[a - 1]] == rows[s[a]] then TieStart(rows, s, a - 1) else a
  }

  lemma {:induction false} TieStartIsGroupStart(rows: seq<Key>, s: seq<nat>, a: nat)
    requires InRange(s, |rows|) && a < |s|
    ensures TieStart(rows, s, a) == GroupStart(StartMask(Gather(rows, s)), a)
  {
    if a > 0 && rows[s[a - 1]] == rows[s[a]] {
      TieStartIsGroupStart(rows, s, a - 1);
    }
  }

  lemma SortedPair(rows: seq<Key>, s: seq<nat>, a: nat, b: nat)
    requires Sorts(rows, s) && a < b < |s|
    ensures !LexLess(rows[s[b]], rows[s[a]])
  {
  }

  /** A sorted row is below the a-th exactly when it comes before the tie group. */
  lemma BelowIsBefore(rows: seq<Key>, s: seq<nat>, a: nat, u: nat)
    requires Sorts(rows, s) && a < |s| && u < |s|
    ensures LexLess(rows[s[u]], rows[s[a]]) <==> u < TieStart(rows, s, a)
  {
    var srt := Gather(rows, s);
    TieStartIsGroupStart(rows, s, a);
    SortedIsGrouped(rows, s);
    GroupStartRows(srt, a);
    assert srt[u] == rows[s[u]] && srt[a] == rows[s[a]];
    LexTotal(srt[u], srt[a]);
    if u < a {
      SortedPair(rows, s, u, a);
    } else if a < u {
      SortedPair(rows, s, a, u);
    }
  }

  lemma {:induction false} TieStartBound(rows: seq<Key>, s: seq<nat>, a: nat)
    requires InRange(s, |rows|) && a < |s|
    ensures TieStart(rows, s, a) <= a
  {
    if a > 0 && rows[s[a - 1]] == rows[s[a]] {
      TieStartBound(rows, s, a - 1);
    }
  }

  lemma EarlierSum(rows: seq<Key>, s: seq<nat>, a: nat)
    requires Sorts(rows, s) && a < |s|
    ensures Sum(Earlier(Unpartitioned(|rows|), Gather(rows, s), a)) == TieStart(rows, s, a)
  {
    var gs, e := TieStart(rows, s, a), Earlier(Unpartitioned(|rows|), Gather(rows, s), a);
    TieStartBound(rows, s, a);
    forall u | 0 <= u < |e| ensures e[u] == if 0 <= u < gs then 1 else 0 {
      BelowIsBefore(rows, s, a, u);
    }
    SumOfInterval(e, 0, gs, |e|);
    assert e[..|e|] == e;
  }

  lemma RankBySum(rows: seq<Key>, s: seq<nat>, a: nat)
    requires IsPerm(s, |rows|) && a < |s|
    ensures RankOf(Unpartitioned(|rows|), rows, s[a]) == 1 + Sum(Earlier(Unpartitioned(|rows|), Gather(rows, s), a))
  {
    var one := Unpartitioned(|rows|);
    assert Gather(one, s) == one;
    RankOfPermuted(one, rows, s, a);
  }

  /** The rank of a sorted row is one plus the start of its tie group. */
  lemma TieStartIsRank(rows: seq<Key>, s: seq<nat>, a: nat)
    requires Sorts(rows, s) && a < |s|
    ensures RankOf(Unpartitioned(|rows|), rows, s[a]) == 1 + TieStart(rows, s, a)
  {
    EarlierSum(rows, s, a);
    RankBySum(rows, s, a);
  }

  /** The ranking loop: along the sorted rows, a row that differs from the one before gets
      its own position as rank, the others share the rank of their tie group. */
  method NumberTies(rows: seq<Key>, s: seq<nat>) returns (rankMap: seq<int>)
    requires IsPerm(s, |rows|)
    ensures |rankMap| == |rows|
    ensures forall a :: 0 <= a < |s| ==> rankMap[s[a]] == 1 + TieStart(rows, s, a)
  {
    var total := |rows|;
    rankMap := seq(total, _ => -1);
    var rank, lastKey := -1, -1;
    for i := 0 to total
      invariant |rankMap| == total
      invariant if i == 0 then rank == -1 else lastKey == s[i - 1] && rank == 1 + TieStart(rows, s, i - 1)
      invariant forall a :: 0 <= a < i ==> rankMap[s[a]] == 1 + TieStart(rows, s, a)
      invariant forall a :: i <= a < total ==> rankMap[s[a]] == -1
    {
      var key := s[i];
      assert rankMap[key] < 0;
      if rank == -1 {
        rank := 1;
      } else if rows[lastKey] != rows[key] {
        rank := i + 1;
      }
      lastKey := key;
      rankMap := rankMap[key := rank];
    }
  }

  /** Rank::RunWindowFunc on one partition. */
  method RankRows(rows: seq<Key>, s: seq<nat>) returns (rankMap: seq<int>)
    requires Sorts(rows, s)
    ensures |rankMap| == |rows|
    ensures forall u :: 0 <= u < |rows| ==> rankMap[u] == RankOf(Unpartitioned(|rows|), rows, u)
  {
    rankMap := NumberTies(rows, s);
    PermReaches(s, |rows|);
    forall u: nat | u < |rows| ensures rankMap[u] == RankOf(Unpartitioned(|rows|), rows, u) {
      TieStartIsRank(rows, s, IndexOf(s, u));
    }
  }

  /** PercentRank::RunWindowFunc on one partition: the same loop, with (rank - 1) / (total - 1)
      stored instead of the rank. */
  method PercentTies(rows: seq<Key>, s: seq<nat>) returns (percent: seq<real>)
    requires IsPerm(s, |rows|)
    ensures |percent| == |rows|
    ensures forall a :: 0 <= a < |s| ==> percent[s[a]] == Fraction(TieStart(rows, s, a), |rows|)
  {
    var total := |rows|;
    percent := seq(total, _ => -1.0);
    var rank, lastKey := -1, -1;
    for i := 0 to total
      invariant |percent| == total
      invariant if i == 0 then rank == -1 else lastKey == s[i - 1] && rank == 1 + TieStart(rows, s, i - 1)
      invariant forall a :: 0 <= a < i ==> percent[s[a]] == Fraction(TieStart(rows, s, a), total)
      invariant forall a :: i <= a < total ==> percent[s[a]] == -1.0
    {
      var key := s[i];
      assert percent[key] < 0.0;
      if rank == -1 {
        rank := 1;
      } else if rows[lastKey] != rows[key] {
        rank := i + 1;
      }
      lastKey := key;
      percent := percent[key := Fraction(rank - 1, total)];
    }
  }

  function Fraction(earlier: int, total: nat): real {
    if total <= 1 then 0.0 else earlier as real / (total - 1) as real
  }

  method PercentRankRows(rows: seq<Key>, s: seq<nat>) returns (percent: seq<real>)
    requires Sorts(rows, s)
    ensures |percent| == |rows|
    ensures forall u :: 0 <= u < |rows| ==> percent[u] == PercentRankOf(Unpartitioned(|rows|), rows, u)
  {
    percent := PercentTies(rows, s);
    PermReaches(s, |rows|);
    forall u: nat | u < |rows| ensures percent[u] == PercentRankOf(Unpartitioned(|rows|), rows, u) {
      TieStartIsRank(rows, s, IndexOf(s, u));
      AllInOnePartition(|rows|, u);
    }
  }

  lemma {:induction false} AllInOnePartition(n: nat, u: nat)
    requires u < n
    ensures multiset(Unpartitioned(n))[Unpartitioned(n)[u]] == n
  {
    IndicatorSum(Unpartitioned(n), []);
    assert Selected(Unpartitioned(n), Ones(n), []) == Ones(n);
    SumOfOnes(n);
  }

  // ---- descending columns

  /** A row as ascending sort key: descending columns change sign. */
  function Directed(reverse: seq<bool>, row: Key): (k: Key)
    requires |reverse| == |row|
    ensures |k| == |row| && forall c :: 0 <= c < |k| ==> k[c] == if reverse[c] then -row[c] else row[c]
  {
    seq(|row|, c requires 0 <= c < |row| => if reverse[c] then -row[c] else row[c])
  }

  /** x comes before y: they differ first in column c, in the direction of that column. */
  ghost predicate ComesFirst(reverse: seq<bool>, x: Key, y: Key, c: nat)
    requires |reverse| == |x| == |y|
  {
    c < |x| && x[..c] == y[..c] && if reverse[c] then y[c] < x[c] else x[c] < y[c]
  }

  lemma {:induction false} LexFirst(x: Key, y: Key)
    requires |x| == |y|
    ensures LexLess(x, y) <==> exists c: nat :: c < |x| && x[..c] == y[..c] && x[c] < y[c]
    decreases |x|
  {
    if x != [] {
      LexFirst(x[1..], y[1..]);
      if x[0] < y[0] {
        assert x[..0] == y[..0];
      }
      if LexLess(x[1..], y[1..]) && x[0] == y[0] {
        var c: nat :| c < |x[1..]| && x[1..][..c] == y[1..][..c] && x[1..][c] < y[1..][c];
        assert x[..c + 1] == [x[0]] + x[1..][..c] && y[..c + 1] == [y[0]] + y[1..][..c];
      }
      if c: nat :| c < |x| && x[..c] == y[..c] && x[c] < y[c] {
        if c > 0 {
          assert x[..c][0] == y[..c][0];
          assert x[1..][..c - 1] == x[..c][1..] && y[1..][..c - 1] == y[..c][1..];
        }
      }
    }
  }

  /** The directed keys order rows as the operator's sort options do, and keep ties. */
  lemma DirectedOrder(reverse: seq<bool>, x: Key, y: Key)
    requires |reverse| == |x| == |y|
    ensures LexLess(Directed(reverse, x), Directed(reverse, y)) <==> exists c: nat :: ComesFirst(reverse, x, y, c)
    ensures Directed(reverse, x) == Directed(reverse, y) <==> x == y
  {
    var dx, dy := Directed(reverse, x), Directed(reverse, y);
    LexFirst(dx, dy);
    forall c: nat | c < |x| ensures ComesFirst(reverse, x, y, c) <==> dx[..c] == dy[..c] && dx[c] < dy[c] {
      SameDirected(reverse, x, y, c);
    }
    SameDirected(reverse, x, y, |x|);
    assert x[..|x|] == x && y[..|x|] == y && dx[..|x|] == dx && dy[..|x|] == dy;
  }

  lemma SameDirected(reverse: seq<bool>, x: Key, y: Key, c: nat)
    requires |reverse| == |x| == |y| && c <= |x|
    ensures Directed(reverse, x)[..c] == Directed(reverse, y)[..c] <==> x[..c] == y[..c]
  {
    var dx, dy := Directed(reverse, x), Directed(reverse, y);
    if dx[..c] == dy[..c] {
      forall h | 0 <= h < c ensures x[h] == y[h] {
        assert dx[..c][h] == dy[..c][h];
      }
    }
    if x[..c] == y[..c] {
      forall h | 0 <= h < c ensures dx[h] == dy[h] {
        assert x[..c][h] == y[..c][h];
      }
    }
  }

  function DirectedRows(reverse: seq<bool>, rows: seq<Key>): (keys: seq<Key>)
    requires EqualWidth(rows, |reverse|)
    ensures |keys| == |rows| && forall i :: 0 <= i < |rows| ==> keys[i] == Directed(reverse, rows[i])
  {
    seq(|rows|, i requires 0 <= i < |rows| => Directed(reverse, rows[i]))
  }

  ghost predicate Precedes(reverse: seq<bool>, x: Key, y: Key)
    requires |reverse| == |x| == |y|
  {
    exists c: nat :: ComesFirst(reverse, x, y, c)
  }

  /** What the sort with these options promises: no row precedes an earlier one. */
  ghost predicate SortedBy(reverse: seq<bool>, rows: seq<Key>, s: seq<nat>)
    requires EqualWidth(rows, |reverse|)
  {
    IsPerm(s, |rows|) && forall a, b :: 0 <= a < b < |s| ==> !Precedes(reverse, rows[s[b]], rows[s[a]])
  }

  /** Sorting with directions is sorting the directed keys in ascending order. */
  lemma SortedByDirected(reverse: seq<bool>, rows: seq<Key>, s: seq<nat>)
    requires EqualWidth(rows, |reverse|)
    ensures SortedBy(reverse, rows, s) <==> Sorts(DirectedRows(reverse, rows), s)
  {
    if IsPerm(s, |rows|) {
      var keys := DirectedRows(reverse, rows);
      forall a, b | 0 <= a < b < |s|
        ensures LexLess(keys[s[b]], keys[s[a]]) <==> Precedes(reverse, rows[s[b]], rows[s[a]])
      {
        DirectedOrder(reverse, rows[s[b]], rows[s[a]]);
      }
    }
  }

  /** The sort is the one the options ask for, ties in any order. */
  ghost predicate Faithful(sorter: seq<Key> -> seq<nat>, reverse: seq<bool>) {
    forall ks :: EqualWidth(ks, |reverse|) ==> SortedBy(reverse, ks, sorter(ks))
  }

  /** GetSortedIndices: an error exactly when the directions do not fit the columns. */
  method GetSortedIndices(reverse: seq<bool>, width: nat, rows: seq<Key>, sorter: seq<Key> -> seq<nat>)
    returns (r: Result<seq<nat>>)
    requires EqualWidth(rows, width) && Faithful(sorter, reverse)
    ensures r.Ok? <==> |reverse| == width
    ensures r.Ok? ==> Sorts(DirectedRows(reverse, rows), r.value)
  {
    if |reverse| != width {
      return Err("sort key numbers are not equal to that of reverse attribute");
    }
    SortedByDirected(reverse, rows, sorter(rows));
    r := Ok(sorter(rows));
  }

  /** The rows of r's partition that precede r under the sort options. */
  ghost function Preceding(part: seq<Key>, reverse: seq<bool>, rows: seq<Key>, r: nat): set<nat>
    requires |part| == |rows| && EqualWidth(rows, |reverse|) && r < |rows|
  {
    set u: nat | u < |rows| && part[u] == part[r] && Precedes(reverse, rows[u], rows[r])
  }

  /** The rank under the directed keys counts those rows. */
  lemma DirectedRank(part: seq<Key>, reverse: seq<bool>, rows: seq<Key>, r: nat)
    requires |part| == |rows| && EqualWidth(rows, |reverse|) && r < |rows|
    ensures RankOf(part, DirectedRows(reverse, rows), r) == 1 + |Preceding(part, reverse, rows, r)|
    ensures Preceding(part, reverse, rows, r) == Ahead(part, DirectedRows(reverse, rows), r)
  {
    var keys := DirectedRows(reverse, rows);
    forall u: nat | u < |rows| ensures LexLess(keys[u], keys[r]) <==> Precedes(reverse, rows[u], rows[r]) {
      DirectedOrder(reverse, rows[u], rows[r]);
    }
    RankMeaning(part, keys, r);
    assert Preceding(part, reverse, rows, r) == Ahead(part, keys, r);
  }

  // ---- partitions

  function PartitionKeys(pid: seq<nat>): (p: seq<Key>)
    ensures |p| == |pid| && forall i :: 0 <= i < |p| ==> p[i] == [pid[i]]
  {
    seq(|pid|, i requires 0 <= i < |pid| => [pid[i]])
  }

  /** A rank inside the partition's own rows is the rank in the whole table. */
  lemma PartitionRank(pid: seq<nat>, rows: seq<Key>, q: nat, i: nat)
    requires |pid| == |rows| && i < |Positions(pid, q, |pid|)|
    ensures
      var pos := Positions(pid, q, |pid|);
      RankOf(Unpartitioned(|pos|), Gather(rows, pos), i) == RankOf(PartitionKeys(pid), rows, pos[i])
  {
    var pos := Positions(pid, q, |pid|);
    var e := Earlier(PartitionKeys(pid), rows, pos[i]);
    SumOverPositions(e, pid, q, |pid|);
    assert e[..|pid|] == e;
    assert Earlier(Unpartitioned(|pos|), Gather(rows, pos), i) == Gather(e, pos);
  }

  /** ProcessResults: the value of the i-th partition row goes to its original position.  The
      checks fail exactly on a length mismatch or a position outside the results. */
  method ProcessResults<T>(length: nat, rankMap: seq<T>, positions: seq<int>, results: seq<T>)
    returns (r: Result<seq<T>>)
    ensures r.Ok? <==> Scattered(length, rankMap, positions, |results|)
    ensures r.Ok? ==>
      && |r.value| == |results|
      && (Distinct(positions) ==> forall i :: 0 <= i < length ==> r.value[positions[i]] == rankMap[i])
      && (forall u :: 0 <= u < |results| && u !in positions ==> r.value[u] == results[u])
  {
    if length != |positions| {
      return Err("position vector size not equal to that of input value");
    }
    var out := results;
    for i := 0 to length
      invariant |out| == |results| && i <= |rankMap|
      invariant forall t :: 0 <= t < i ==> 0 <= positions[t] < |results|
      invariant Distinct(positions) ==> forall t :: 0 <= t < i ==> out[positions[t]] == rankMap[t]
      invariant forall u :: 0 <= u < |results| && u !in positions ==> out[u] == results[u]
    {
      if i >= |rankMap| {
        return Err("failed to find the indice of position");
      }
      if !(0 <= positions[i] < |results|) {
        return Err("position is out of range");
      }
      out := out[positions[i] := rankMap[i]];
    }
    r := Ok(out);
  }

  ghost predicate Scattered<T>(length: nat, rankMap: seq<T>, positions: seq<int>, n: nat) {
    length == |positions| && length <= |rankMap| && forall i :: 0 <= i < length ==> 0 <= positions[i] < n
  }

  function Lookup(m: map<nat, seq<nat>>, q: nat): seq<nat> {
    if q in m then m[q] else []
  }

  function PushBack(m: map<nat, seq<nat>>, q: nat, i: nat): map<nat, seq<nat>> {
    m[q := Lookup(m, q) + [i]]
  }

  ghost predicate Collected(m: map<nat, seq<nat>>, pid: seq<nat>, n: nat)
    requires n <= |pid|
  {
    forall q: nat {:trigger Lookup(m, q)} :: Lookup(m, q) == Positions(pid, q, n)
  }

  lemma CollectedEmpty(pid: seq<nat>)
    ensures Collected(map[], pid, 0)
  {
  }

  lemma CollectStep(m: map<nat, seq<nat>>, pid: seq<nat>, i: nat)
    requires i < |pid| && Collected(m, pid, i)
    ensures Collected(PushBack(m, pid[i], i), pid, i + 1)
  {
    var m' := PushBack(m, pid[i], i);
    forall q: nat ensures Lookup(m', q) == Positions(pid, q, i + 1) {
      PositionsStep(pid, q, i);
      assert Lookup(m, q) == Positions(pid, q, i);
    }
  }

  /** positions_map: the rows of every partition. */
  method CollectPositions(pid: seq<nat>) returns (m: map<nat, seq<nat>>)
    ensures Collected(m, pid, |pid|)
    ensures forall q, r: nat {:trigger r in Lookup(m, q)} :: r in Lookup(m, q) <==> r < |pid| && pid[r] == q
    ensures forall q, a, b :: 0 <= a < b < |Lookup(m, q)| ==> Lookup(m, q)[a] < Lookup(m, q)[b]
  {
    m := map[];
    CollectedEmpty(pid);
    for i := 0 to |pid|
      invariant Collected(m, pid, i)
    {
      CollectStep(m, pid, i);
      m := PushBack(m, pid[i], i);
    }
    forall q: nat
      ensures forall r: nat :: r in Lookup(m, q) <==> r < |pid| && pid[r] == q
      ensures forall a, b :: 0 <= a < b < |Lookup(m, q)| ==> Lookup(m, q)[a] < Lookup(m, q)[b]
    {
      assert Lookup(m, q) == Positions(pid, q, |pid|);
      PositionsComplete(pid, q, |pid|);
      PositionsAscend(pid, q, |pid|);
    }
  }

  /** A partition's values go to its rows; all other rows keep theirs. */
  method Scatter<T>(pid: seq<nat>, ghost q: nat, pos: seq<nat>, values: seq<T>, results: seq<T>, ghost want: seq<T>)
    returns (out: seq<T>)
    requires |pid| == |results| == |want| && pos == Positions(pid, q, |pid|) && |values| == |pos|
    requires forall i :: 0 <= i < |pos| ==> values[i] == want[pos[i]]
    ensures |out| == |results|
    ensures forall u :: 0 <= u < |pid| ==> out[u] == if pid[u] == q then want[u] else results[u]
  {
    PositionsComplete(pid, q, |pid|);
    var scattered := ProcessResults(|pos|, values, pos, results);
    out := scattered.value;
    forall u: nat | u < |pid| && pid[u] == q ensures out[u] == want[u] {
      assert out[pos[IndexOf(pos, u)]] == values[IndexOf(pos, u)];
    }
  }

  ghost function RankColumn(part: seq<Key>, order: seq<Key>): (r: seq<int>)
    requires |part| == |order|
    ensures |r| == |part| && forall u :: 0 <= u < |r| ==> r[u] == RankOf(part, order, u)
  {
    seq(|part|, u requires 0 <= u < |part| => RankOf(part, order, u))
  }

  ghost function PercentColumn(part: seq<Key>, order: seq<Key>): (r: seq<real>)
    requires |part| == |order|
    ensures |r| == |part| && forall u :: 0 <= u < |r| ==> r[u] == PercentRankOf(part, order, u)
  {
    seq(|part|, u requires 0 <= u < |part| => PercentRankOf(part, order, u))
  }

  /** One partition of Rank: rank its sorted rows, scatter the ranks. */
  method RankPartition(pid: seq<nat>, rows: seq<Key>, ghost q: nat, pos: seq<nat>, s: seq<nat>, results: seq<int>)
    returns (out: seq<int>)
    requires |pid| == |rows| == |results| && pos == Positions(pid, q, |pid|) && Sorts(Gather(rows, pos), s)
    ensures |out| == |results|
    ensures forall u :: 0 <= u < |pid| ==>
      out[u] == if pid[u] == q then RankOf(PartitionKeys(pid), rows, u) else results[u]
  {
    var rankMap := RankRows(Gather(rows, pos), s);
    forall i | 0 <= i < |pos| ensures rankMap[i] == RankOf(PartitionKeys(pid), rows, pos[i]) {
      PartitionRank(pid, rows, q, i);
    }
    out := Scatter(pid, q, pos, rankMap, results, RankColumn(PartitionKeys(pid), rows));
  }

  /** One partition of PercentRank. */
  method PercentPartition(pid: seq<nat>, rows: seq<Key>, ghost q: nat, pos: seq<nat>, s: seq<nat>, results: seq<real>)
    returns (out: seq<real>)
    requires |pid| == |rows| == |results| && pos == Positions(pid, q, |pid|) && Sorts(Gather(rows, pos), s)
    ensures |out| == |results|
    ensures forall u :: 0 <= u < |pid| ==>
      out[u] == if pid[u] == q then PercentRankOf(PartitionKeys(pid), rows, u) else results[u]
  {
    var percent := PercentRankRows(Gather(rows, pos), s);
    forall i | 0 <= i < |pos| ensures percent[i] == PercentRankOf(PartitionKeys(pid), rows, pos[i]) {
      PartitionPercent(pid, rows, q, i);
    }
    out := Scatter(pid, q, pos, percent, results, PercentColumn(PartitionKeys(pid), rows));
  }

  /** The rows of the first q partitions carry their SQL rank. */
  ghost predicate RankedBelow(results: seq<int>, pid: seq<nat>, rows: seq<Key>, q: nat) {
    && |results| == |pid| == |rows|
    && forall u :: 0 <= u < |pid| && pid[u] < q ==> results[u] == RankOf(PartitionKeys(pid), rows, u)
  }

  /** The rows of the first q partitions carry their SQL percent rank. */
  ghost predicate PercentsBelow(results: seq<real>, pid: seq<nat>, rows: seq<Key>, q: nat) {
    && |results| == |pid| == |rows|
    && forall u :: 0 <= u < |pid| && pid[u] < q ==> results[u] == PercentRankOf(PartitionKeys(pid), rows, u)
  }

  ghost predicate NonEmptyBelow(pid: seq<nat>, n: nat) {
    forall q: nat :: q < n ==> Positions(pid, q, |pid|) != []
  }

  lemma NonEmptyStep(pid: seq<nat>, q: nat)
    requires NonEmptyBelow(pid, q)
    ensures Positions(pid, q, |pid|) != [] ==> NonEmptyBelow(pid, q + 1)
    ensures Positions(pid, q, |pid|) == [] ==> forall n: nat :: q < n ==> !NonEmptyBelow(pid, n)
  {
  }

  /** The sort of one partition's rows, as positions into them. */
  method SortPartition(reverse: seq<bool>, width: nat, rows: seq<Key>, pos: seq<nat>, sorter: seq<Key> -> seq<nat>)
    returns (r: Result<seq<nat>>)
    requires EqualWidth(rows, width) && InRange(pos, |rows|) && Faithful(sorter, reverse)
    ensures r.Ok? <==> |reverse| == width
    ensures r.Ok? ==> Sorts(Gather(DirectedRows(reverse, rows), pos), r.value)
  {
    r := GetSortedIndices(reverse, width, Gather(rows, pos), sorter);
    if r.Ok? {
      assert DirectedRows(reverse, Gather(rows, pos)) == Gather(DirectedRows(reverse, rows), pos);
    }
  }

  /** When the whole table can be ranked: every partition has rows and every sort column a direction. */
  ghost predicate Rankable(pid: seq<nat>, n: nat, reverse: seq<bool>, width: nat) {
    NonEmptyBelow(pid, n) && (n == 0 || |reverse| == width)
  }

  /** Rank of the whole table.  A partition id below the partition count without rows is
      reported; otherwise every row gets its SQL rank, whatever order the sort gives to ties. */
  method ExecuteInPlain(pid: seq<nat>, partitionNum: nat, reverse: seq<bool>, width: nat, rows: seq<Key>,
                        sorter: seq<Key> -> seq<nat>)
    returns (r: Result<seq<int>>)
    requires |pid| == |rows| && InRange(pid, partitionNum) && EqualWidth(rows, width) && Faithful(sorter, reverse)
    ensures r.Ok? <==> Rankable(pid, partitionNum, reverse, width)
    ensures r.Ok? ==> |r.value| == |rows|
    ensures r.Ok? && |reverse| == width ==> RankedBelow(r.value, pid, DirectedRows(reverse, rows), partitionNum)
  {
    var positions := CollectPositions(pid);
    var results := seq(|pid|, _ => 0);
    for q := 0 to partitionNum
      invariant Rankable(pid, q, reverse, width) && |results| == |rows|
      invariant |reverse| == width ==> RankedBelow(results, pid, DirectedRows(reverse, rows), q)
    {
      var pos := Lookup(positions, q);
      NonEmptyStep(pid, q);
      if pos == [] {
        return Err("partitioned slice is empty");
      }
      var s := SortPartition(reverse, width, rows, pos, sorter);
      if s.Err? {
        return Err(s.error);
      }
      results := RankPartition(pid, DirectedRows(reverse, rows), q, pos, s.value, results);
    }
    r := Ok(results);
  }

  /** PercentRank of the whole table: the same loop around another ranking function. */
  method ExecutePercentInPlain(pid: seq<nat>, partitionNum: nat, reverse: seq<bool>, width: nat, rows: seq<Key>,
                               sorter: seq<Key> -> seq<nat>)
    returns (r: Result<seq<real>>)
    requires |pid| == |rows| && InRange(pid, partitionNum) && EqualWidth(rows, width) && Faithful(sorter, reverse)
    ensures r.Ok? <==> Rankable(pid, partitionNum, reverse, width)
    ensures r.Ok? ==> |r.value| == |rows|
    ensures r.Ok? && |reverse| == width ==> PercentsBelow(r.value, pid, DirectedRows(reverse, rows), partitionNum)
  {
    var positions := CollectPositions(pid);
    var results := seq(|pid|, _ => 0.0);
    for q := 0 to partitionNum
      invariant Rankable(pid, q, reverse, width) && |results| == |rows|
      invariant |reverse| == width ==> PercentsBelow(results, pid, DirectedRows(reverse, rows), q)
    {
      var pos := Lookup(positions, q);
      NonEmptyStep(pid, q);
      if pos == [] {
        return Err("partitioned slice is empty");
      }
      var s := SortPartition(reverse, width, rows, pos, sorter);
      if s.Err? {
        return Err(s.error);
      }
      results := PercentPartition(pid, DirectedRows(reverse, rows), q, pos, s.value, results);
    }
    r := Ok(results);
  }

  /** What the plaintext RANK of the whole table holds in row u: one plus the rows of its partition
      that come first under the sort options. */
  lemma PlainRankCounts(pid: seq<nat>, reverse: seq<bool>, rows: seq<Key>, plain: seq<int>, n: nat, u: nat,
                        first: set<nat>)
    requires |pid| == |rows| && EqualWidth(rows, |reverse|) && u < |rows| && InRange(pid, n)
    requires RankedBelow(plain, pid, DirectedRows(reverse, rows), n)
    requires first == set h: nat | h < |pid| && pid[h] == pid[u] && Precedes(reverse, rows[h], rows[u])
    ensures plain[u] == 1 + |first|
  {
    DirectedRank(PartitionKeys(pid), reverse, rows, u);
    assert first == Preceding(PartitionKeys(pid), reverse, rows, u);
  }

  /** What the plaintext PERCENT_RANK holds in row u: the rows of its partition that come first over
      its other rows; 0 for a row alone. */
  lemma PlainPercentCounts(pid: seq<nat>, reverse: seq<bool>, rows: seq<Key>, plain: seq<real>, n: nat, u: nat,
                           peers: set<nat>, first: set<nat>)
    requires |pid| == |rows| && EqualWidth(rows, |reverse|) && u < |rows| && InRange(pid, n)
    requires PercentsBelow(plain, pid, DirectedRows(reverse, rows), n)
    requires peers == set h: nat | h < |pid| && pid[h] == pid[u]
    requires first == set h: nat | h < |pid| && pid[h] == pid[u] && Precedes(reverse, rows[h], rows[u])
    ensures |peers| >= 1 && (|peers| == 1 ==> plain[u] == 0.0)
    ensures |peers| > 1 ==> plain[u] == |first| as real / (|peers| - 1) as real
  {
    var part := PartitionKeys(pid);
    DirectedRank(part, reverse, rows, u);
    assert first == Preceding(part, reverse, rows, u) && peers == Peers(part, u);
    PercentMeaning(part, DirectedRows(reverse, rows), u, plain[u], peers, first);
  }

  lemma SameRank(pid: seq<nat>, part: seq<Key>, order: seq<Key>, r: nat)
    requires |pid| == |part| == |order| && r < |part|
    requires forall u :: 0 <= u < |pid| ==> (pid[u] == pid[r] <==> part[u] == part[r])
    ensures RankOf(PartitionKeys(pid), order, r) == RankOf(part, order, r)
  {
    assert Earlier(PartitionKeys(pid), order, r) == Earlier(part, order, r);
  }

  /** Partition ids stand for partition keys: the plaintext ranks are the oblivious ones, row
      for row, once the oblivious table is mapped back to its original rows. */
  lemma RanksAgree(pid: seq<nat>, part: seq<Key>, order: seq<Key>, w: nat, plain: seq<int>, n: nat, t: nat)
    requires |pid| == |part| == |order| && EqualWidth(part, w) && t < |part|
    requires forall u, v :: 0 <= u < |pid| && 0 <= v < |pid| ==> (pid[u] == pid[v] <==> part[u] == part[v])
    requires InRange(pid, n) && RankedBelow(plain, pid, order, n)
    ensures
      var p := TableOrder(part, order);
      var part', order' := Gather(part, p), Gather(order, p);
      ObliviousRank(EndMark(FullKeys(part', order')), TransferGroupMask(EndMark(part')))[t] == plain[p[t]]
  {
    SecretRank(part, order, w, t);
    SameRank(pid, part, order, TableOrder(part, order)[t]);
  }

  // ---- percent rank

  lemma {:induction false} PositionsCount(pid: seq<nat>, q: nat, n: nat)
    requires n <= |pid|
    ensures multiset(PartitionKeys(pid)[..n])[[q]] == |Positions(pid, q, n)|
  {
    if n > 0 {
      PositionsCount(pid, q, n - 1);
      assert PartitionKeys(pid)[..n] == PartitionKeys(pid)[..n - 1] + [[pid[n - 1]]];
    }
  }

  lemma {:induction false} AllAlike(n: nat)
    ensures multiset(Unpartitioned(n))[[]] == n
  {
    if n > 0 {
      AllAlike(n - 1);
      assert Unpartitioned(n) == Unpartitioned(n - 1) + [[]];
    }
  }

  /** A percent rank inside the partition's own rows is the percent rank in the whole table. */
  lemma PartitionPercent(pid: seq<nat>, rows: seq<Key>, q: nat, i: nat)
    requires |pid| == |rows| && i < |Positions(pid, q, |pid|)|
    ensures
      var pos := Positions(pid, q, |pid|);
      PercentRankOf(Unpartitioned(|pos|), Gather(rows, pos), i) == PercentRankOf(PartitionKeys(pid), rows, pos[i])
  {
    var pos := Positions(pid, q, |pid|);
    PartitionRank(pid, rows, q, i);
    AllAlike(|pos|);
    PositionsCount(pid, q, |pid|);
    assert PartitionKeys(pid)[..|pid|] == PartitionKeys(pid);
    assert PartitionKeys(pid)[pos[i]] == [q];
  }

  lemma {:induction false} SameCounts(p: seq<Key>, q: seq<Key>, r: nat, n: nat)
    requires |p| == |q| && r < |p| && n <= |p|
    requires forall u :: 0 <= u < |p| ==> (p[u] == p[r] <==> q[u] == q[r])
    ensures multiset(p[..n])[p[r]] == multiset(q[..n])[q[r]]
  {
    if n > 0 {
      SameCounts(p, q, r, n - 1);
      assert p[..n] == p[..n - 1] + [p[n - 1]] && q[..n] == q[..n - 1] + [q[n - 1]];
    }
  }

  lemma SamePercent(pid: seq<nat>, part: seq<Key>, order: seq<Key>, r: nat)
    requires |pid| == |part| == |order| && r < |part|
    requires forall u :: 0 <= u < |pid| ==> (pid[u] == pid[r] <==> part[u] == part[r])
    ensures PercentRankOf(PartitionKeys(pid), order, r) == PercentRankOf(part, order, r)
  {
    SameRank(pid, part, order, r);
    SameCounts(PartitionKeys(pid), part, r, |part|);
    assert PartitionKeys(pid)[..|part|] == PartitionKeys(pid) && part[..|part|] == part;
  }

  /** The plaintext percent ranks are the oblivious ones, row for row, once the oblivious table
      is mapped back to its original rows. */
  lemma PercentsAgree(pid: seq<nat>, part: seq<Key>, order: seq<Key>, w: nat, plain: seq<real>, n: nat, t: nat)
    requires |pid| == |part| == |order| && EqualWidth(part, w) && t < |part|
    requires forall u, v :: 0 <= u < |pid| && 0 <= v < |pid| ==> (pid[u] == pid[v] <==> part[u] == part[v])
    requires InRange(pid, n) && PercentsBelow(plain, pid, order, n)
    ensures
      var p := TableOrder(part, order);
      var part', order' := Gather(part, p), Gather(order, p);
      ObliviousPercentRank(EndMark(FullKeys(part', order')), TransferGroupMask(EndMark(part')))[t] == plain[p[t]]
  {
    SecretRank(part, order, w, t);
    SamePercent(pid, part, order, TableOrder(part, order)[t]);
  }
}
