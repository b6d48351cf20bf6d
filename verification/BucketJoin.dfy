/** Bucketed execution preserves meaning: two parties agree on the branch and on the number of
    buckets, so equal keys meet in the same bucket and the bucket-wise joins together are the
    join of the whole tables (engine/framework/session.cc, engine/operator/bucket.cc). */
module BucketJoin {
  import opened Columns
  import opened Ordering
  import opened Agreement
  import opened Bucket
  import opened BucketInput
  import BucketSchedule
  import JoinSpec

  // ---- agreement

  /** What a party does with its tables: keep them whole, or split them into buckets. */
  datatype Plan = Whole | Split(buckets: nat)

  ghost predicate Positive(s: seq<nat>) { forall i :: 0 <= i < |s| ==> s[i] > 0 }

  /** buckets is the longest length over the rows of a batch, rounded up. */
  ghost predicate Covers(buckets: nat, longest: nat, rows: nat) {
    buckets * rows >= longest > (buckets - 1) * rows
  }

  lemma RoundUp(n: nat, d: nat)
    requires d > 0
    ensures Covers((n + d - 1) / d, n, d)
  {
    var q, r := (n + d - 1) / d, (n + d - 1) % d;
    assert n + d - 1 == q * d + r;
    assert (q - 1) * d == q * d - d;
  }

  /** The plan in terms of what all parties together know. */
  ghost predicate AgreedPlan(plan: Plan, lengths: seq<nat>, thresholds: seq<nat>, batchRows: seq<nat>)
    requires lengths != [] && thresholds != [] && batchRows != []
  {
    if Largest(lengths) <= Least(thresholds) then plan == Whole
    else plan.Split? && plan.buckets > 0 && Covers(plan.buckets, Largest(lengths), Least(batchRows))
  }

  /** The number of buckets in terms of every length and every option. */
  lemma CoversAll(buckets: nat, lengths: seq<nat>, batchRows: seq<nat>)
    requires lengths != [] && batchRows != [] && Covers(buckets, Largest(lengths), Least(batchRows))
    ensures forall i, j :: 0 <= i < |lengths| && 0 <= j < |batchRows| ==> lengths[i] <= buckets * batchRows[j]
    ensures exists i, j :: 0 <= i < |lengths| && 0 <= j < |batchRows| && (buckets - 1) * batchRows[j] < lengths[i]
  {
    var l, m := Largest(lengths), Least(batchRows);
    forall i, j | 0 <= i < |lengths| && 0 <= j < |batchRows| ensures lengths[i] <= buckets * batchRows[j] {
      ScaleUp(m, batchRows[j], buckets);
    }
    var i :| 0 <= i < |lengths| && lengths[i] == l;
    var j :| 0 <= j < |batchRows| && batchRows[j] == m;
    assert (buckets - 1) * batchRows[j] < lengths[i];
  }

  /** Bucket::Execute up to the choice of branch, at one party: the lengths are gathered from the
      two parties with inputs, the options from all. */
  method ChoosePlan(lengths: seq<nat>, thresholds: seq<nat>, batchRows: seq<nat>, self: nat) returns (plan: Plan)
    requires lengths != [] && self < |thresholds| == |batchRows| && Positive(batchRows)
    ensures AgreedPlan(plan, lengths, thresholds, batchRows)
    ensures plan == Whole <==>
      forall i, j :: 0 <= i < |lengths| && 0 <= j < |thresholds| ==> lengths[i] <= thresholds[j]
    ensures plan.Split? ==>
      && (forall i, j :: 0 <= i < |lengths| && 0 <= j < |batchRows| ==> lengths[i] <= plan.buckets * batchRows[j])
      && exists i, j :: 0 <= i < |lengths| && 0 <= j < |batchRows| && (plan.buckets - 1) * batchRows[j] < lengths[i]
  {
    var threshold := SmallestOption(thresholds, self);
    var rows := SmallestOption(batchRows, self);
    var longest := LargestGathered(lengths);
    if longest <= threshold {
      plan := Whole;
    } else {
      plan := Split((longest + rows - 1) / rows);
      RoundUp(longest, rows);
      CoversAll(plan.buckets, lengths, batchRows);
    }
  }

  lemma ScaleUp(a: int, b: int, d: nat)
    requires a <= b
    ensures a * d <= b * d
  {
    assert b * d - a * d == (b - a) * d;
  }

  lemma CoversUnique(b: nat, b': nat, longest: nat, rows: nat)
    requires Covers(b, longest, rows) && Covers(b', longest, rows)
    ensures b <= b'
  {
    if b > b' {
      ScaleUp(b', b - 1, rows);
    }
  }

  /** All parties choose the same branch and the same number of buckets. */
  lemma SamePlan(p: Plan, q: Plan, lengths: seq<nat>, thresholds: seq<nat>, batchRows: seq<nat>)
    requires lengths != [] && thresholds != [] && batchRows != []
    requires AgreedPlan(p, lengths, thresholds, batchRows) && AgreedPlan(q, lengths, thresholds, batchRows)
    ensures p == q
  {
    if p.Split? {
      CoversUnique(p.buckets, q.buckets, Largest(lengths), Least(batchRows));
      CoversUnique(q.buckets, p.buckets, Largest(lengths), Least(batchRows));
    }
  }

  // ---- joining bucket by bucket

  /** pairs is a join of the two key columns: every pair of rows with equal keys, once. */
  ghost predicate Joins(pairs: seq<(nat, nat)>, lk: seq<Key>, rk: seq<Key>) {
    forall x: nat, y: nat :: multiset(pairs)[(x, y)] == Matches(lk, rk, x, y)
  }

  function Matches(lk: seq<Key>, rk: seq<Key>, x: nat, y: nat): nat {
    if x < |lk| && y < |rk| && lk[x] == rk[y] then 1 else 0
  }

  /** SecretJoin's output is one. */
  lemma InnerJoinJoins(pairs: seq<(nat, nat)>, lk: seq<Key>, rk: seq<Key>)
    requires JoinSpec.IsInnerJoin(pairs, lk, rk)
    ensures Joins(pairs, lk, rk)
  {
    JoinSpec.InnerJoinDistinct(pairs, lk, rk);
  }

  /** Pairs of a bucket renumbered as rows of the whole tables. */
  function Renumber(pairs: seq<(nat, nat)>, l: seq<nat>, r: seq<nat>): (out: seq<(nat, nat)>)
    requires Within(pairs, l, r)
    ensures |out| == |pairs|
  {
    seq(|pairs|, t requires 0 <= t < |pairs| => (l[pairs[t].0], r[pairs[t].1]))
  }

  ghost predicate Within(pairs: seq<(nat, nat)>, l: seq<nat>, r: seq<nat>) {
    forall t :: 0 <= t < |pairs| ==> pairs[t].0 < |l| && pairs[t].1 < |r|
  }

  lemma JoinsWithin(pairs: seq<(nat, nat)>, lk: seq<Key>, rk: seq<Key>, l: seq<nat>, r: seq<nat>)
    requires Joins(pairs, lk, rk) && |lk| == |l| && |rk| == |r|
    ensures Within(pairs, l, r)
  {
    forall t | 0 <= t < |pairs| ensures pairs[t].0 < |l| && pairs[t].1 < |r| {
      assert pairs[t] in multiset(pairs);
      assert pairs[t] == (pairs[t].0, pairs[t].1);
      assert Matches(lk, rk, pairs[t].0, pairs[t].1) > 0;
    }
  }

  /** Renumbering is injective, so it keeps multiplicities. */
  lemma {:induction false} RenumberCount(pairs: seq<(nat, nat)>, l: seq<nat>, r: seq<nat>, i: nat, k: nat)
    requires Within(pairs, l, r) && Distinct(l) && Distinct(r) && i < |l| && k < |r|
    ensures multiset(Renumber(pairs, l, r))[(l[i], r[k])] == multiset(pairs)[(i, k)]
  {
    if pairs != [] {
      var n := |pairs| - 1;
      var out := Renumber(pairs, l, r);
      RenumberCount(pairs[..n], l, r, i, k);
      assert pairs == pairs[..n] + [pairs[n]];
      assert out == Renumber(pairs[..n], l, r) + [out[n]];
      assert out[n] == (l[i], r[k]) <==> pairs[n] == (i, k);
    }
  }

  lemma RowsOfDistinct(rows: seq<nat>, ids: seq<nat>, j: nat)
    requires RowsOf(rows, ids, j)
    ensures Distinct(rows)
    ensures forall x: nat :: x in rows <==> x < |ids| && ids[x] == j
  {
    forall a, b | 0 <= a < b < |rows| ensures rows[a] != rows[b] {
      if rows[a] == rows[b] {
        CountsTwice(rows, a, b);
      }
    }
    forall x: nat ensures x in rows <==> x < |ids| && ids[x] == j {
      assert x in rows <==> multiset(rows)[x] > 0;
    }
  }

  /** One bucket: its rows at both parties and its join. */
  datatype Part = Part(left: seq<nat>, right: seq<nat>, pairs: seq<(nat, nat)>)

  ghost predicate JoinedPart(p: Part, lk: seq<Key>, rk: seq<Key>, hash: Key -> nat, buckets: nat, j: nat)
    requires buckets > 0
  {
    && RowsOf(p.left, BucketIds(lk, hash, buckets), j) && InRange(p.left, |lk|)
    && RowsOf(p.right, BucketIds(rk, hash, buckets), j) && InRange(p.right, |rk|)
    && Joins(p.pairs, Gather(lk, p.left), Gather(rk, p.right))
    && Within(p.pairs, p.left, p.right)
  }

  /** Bucket j contributes exactly the matching pairs whose keys fall into it. */
  lemma PartCount(p: Part, lk: seq<Key>, rk: seq<Key>, hash: Key -> nat, buckets: nat, j: nat, x: nat, y: nat)
    requires buckets > 0 && JoinedPart(p, lk, rk, hash, buckets, j)
    ensures multiset(Renumber(p.pairs, p.left, p.right))[(x, y)]
         == if Matches(lk, rk, x, y) == 1 && BucketOf(hash, buckets, lk[x]) == j then 1 else 0
  {
    var out := Renumber(p.pairs, p.left, p.right);
    RowsOfDistinct(p.left, BucketIds(lk, hash, buckets), j);
    RowsOfDistinct(p.right, BucketIds(rk, hash, buckets), j);
    if x in p.left && y in p.right {
      var i, k := IndexOf(p.left, x), IndexOf(p.right, y);
      RenumberCount(p.pairs, p.left, p.right, i, k);
      assert multiset(p.pairs)[(i, k)] == Matches(Gather(lk, p.left), Gather(rk, p.right), i, k);
    } else {
      assert (x, y) !in out;
    }
  }

  /** The output of the buckets, one after the other. */
  function AllPairs(parts: seq<Part>): (out: seq<(nat, nat)>)
    requires forall j :: 0 <= j < |parts| ==> Within(parts[j].pairs, parts[j].left, parts[j].right)
  {
    if parts == [] then []
    else
      var n := |parts| - 1;
      AllPairs(parts[..n]) + Renumber(parts[n].pairs, parts[n].left, parts[n].right)
  }

  ghost predicate JoinedParts(parts: seq<Part>, lk: seq<Key>, rk: seq<Key>, hash: Key -> nat, buckets: nat)
    requires buckets > 0
  {
    forall j :: 0 <= j < |parts| ==> JoinedPart(parts[j], lk, rk, hash, buckets, j)
  }

  lemma {:induction false} AllPairsCount(parts: seq<Part>, lk: seq<Key>, rk: seq<Key>, hash: Key -> nat, buckets: nat,
                                         x: nat, y: nat)
    requires buckets > 0 && JoinedParts(parts, lk, rk, hash, buckets)
    ensures multiset(AllPairs(parts))[(x, y)]
         == if Matches(lk, rk, x, y) == 1 && BucketOf(hash, buckets, lk[x]) < |parts| then 1 else 0
  {
    if parts != [] {
      var n := |parts| - 1;
      AllPairsCount(parts[..n], lk, rk, hash, buckets, x, y);
      PartCount(parts[n], lk, rk, hash, buckets, n, x, y);
    }
  }

  /** The joins of the buckets together are the join of the whole tables. */
  lemma BucketwiseJoin(parts: seq<Part>, lk: seq<Key>, rk: seq<Key>, hash: Key -> nat, buckets: nat)
    requires buckets > 0 && |parts| == buckets && JoinedParts(parts, lk, rk, hash, buckets)
    ensures Joins(AllPairs(parts), lk, rk)
  {
    forall x: nat, y: nat ensures multiset(AllPairs(parts))[(x, y)] == Matches(lk, rk, x, y) {
      AllPairsCount(parts, lk, rk, hash, buckets, x, y);
    }
  }

  // ---- both parties

  /** A party's join keys, where its columns are kept, and a run of its threads. */
  datatype Party = Party(keys: seq<Key>, media: seq<Medium>, events: seq<BucketSchedule.Event>,
                         end: BucketSchedule.State)

  ghost predicate Finished(p: Party, size: nat) {
    && EndedRun(p.media, |p.keys|, size, p.events, p.end)
    && InRange(p.end.written, |ReadCuts(|p.keys|, size)| - 1)
  }

  /** The rows the party has stored in bucket j. */
  ghost function BucketRows(p: Party, size: nat, buckets: nat, hash: Key -> nat, j: nat): (rows: seq<nat>)
    requires Finished(p, size) && buckets > 0
    ensures InRange(rows, |p.keys|)
  {
    EndRows(BucketIds(p.keys, hash, buckets), size, p.end, j)
  }

  /** The buckets of both parties, each joined. */
  ghost predicate PartsOf(parts: seq<Part>, l: Party, r: Party, size: nat, lb: nat, rb: nat, hash: Key -> nat)
    requires Finished(l, size) && Finished(r, size) && lb > 0 && rb > 0
  {
    forall j :: 0 <= j < |parts| ==>
      && parts[j].left == BucketRows(l, size, lb, hash, j) && parts[j].right == BucketRows(r, size, rb, hash, j)
      && Joins(parts[j].pairs, Gather(l.keys, parts[j].left), Gather(r.keys, parts[j].right))
  }

  ghost predicate AllWithin(parts: seq<Part>) {
    forall j :: 0 <= j < |parts| ==> Within(parts[j].pairs, parts[j].left, parts[j].right)
  }

  lemma PartsWithin(parts: seq<Part>, l: Party, r: Party, size: nat, lb: nat, rb: nat, hash: Key -> nat)
    requires Finished(l, size) && Finished(r, size) && lb > 0 && rb > 0 && PartsOf(parts, l, r, size, lb, rb, hash)
    ensures AllWithin(parts)
  {
    forall j | 0 <= j < |parts| ensures Within(parts[j].pairs, parts[j].left, parts[j].right) {
      var p := parts[j];
      JoinsWithin(p.pairs, Gather(l.keys, p.left), Gather(r.keys, p.right), p.left, p.right);
    }
  }

  lemma BucketsJoined(parts: seq<Part>, l: Party, r: Party, size: nat, buckets: nat, hash: Key -> nat)
    requires Finished(l, size) && Finished(r, size) && buckets > 0 && size > 0
    requires PartsOf(parts, l, r, size, buckets, buckets, hash) && AllWithin(parts)
    ensures JoinedParts(parts, l.keys, r.keys, hash, buckets)
  {
    forall j | 0 <= j < |parts| ensures JoinedPart(parts[j], l.keys, r.keys, hash, buckets, j) {
      EndStoresAll(l.media, BucketIds(l.keys, hash, buckets), size, l.events, l.end, j);
      EndStoresAll(r.media, BucketIds(r.keys, hash, buckets), size, r.events, r.end, j);
    }
  }

  /** No row of one table matches a row of the other. */
  ghost predicate NoMatch(lk: seq<Key>, rk: seq<Key>) {
    forall x: nat, y: nat :: Matches(lk, rk, x, y) == 0
  }

  lemma {:induction false} EmptyParts(parts: seq<Part>)
    requires AllWithin(parts) && forall j :: 0 <= j < |parts| ==> parts[j].left == []
    ensures AllPairs(parts) == []
  {
    if parts != [] {
      var n := |parts| - 1;
      EmptyParts(parts[..n]);
      var p := parts[n];
      assert p.pairs != [] ==> p.pairs[0].0 < |p.left|;
    }
  }

  lemma NothingJoined(parts: seq<Part>, l: Party, r: Party, buckets: nat, hash: Key -> nat)
    requires Finished(l, 0) && Finished(r, 0) && buckets > 0
    requires PartsOf(parts, l, r, 0, buckets, buckets, hash) && AllWithin(parts)
    ensures AllPairs(parts) == []
  {
    forall j | 0 <= j < |parts| ensures parts[j].left == [] {
      EndStoresNothing(l.media, BucketIds(l.keys, hash, buckets), l.events, l.end, j);
    }
    EmptyParts(parts);
  }

  lemma EmptyJoins(lk: seq<Key>, rk: seq<Key>)
    ensures Joins([], lk, rk) <==> NoMatch(lk, rk)
  {
    var none: seq<(nat, nat)> := [];
    if Joins([], lk, rk) {
      forall x: nat, y: nat ensures Matches(lk, rk, x, y) == 0 {
        assert multiset(none)[(x, y)] == 0;
      }
    }
    if NoMatch(lk, rk) {
      forall x: nat, y: nat ensures multiset(none)[(x, y)] == Matches(lk, rk, x, y) {
      }
    }
  }

  /** The buckets' joins are the whole join exactly when rows are read at all, or none match. */
  lemma PartsJoinIff(parts: seq<Part>, l: Party, r: Party, size: nat, hash: Key -> nat)
    requires Finished(l, size) && Finished(r, size) && parts != []
    requires PartsOf(parts, l, r, size, |parts|, |parts|, hash)
    ensures AllWithin(parts)
    ensures Joins(AllPairs(parts), l.keys, r.keys) <==> size > 0 || NoMatch(l.keys, r.keys)
  {
    var n := |parts|;
    PartsWithin(parts, l, r, size, n, n, hash);
    if size > 0 {
      BucketsJoined(parts, l, r, size, n, hash);
      BucketwiseJoin(parts, l.keys, r.keys, hash, n);
    } else {
      NothingJoined(parts, l, r, n, hash);
      EmptyJoins(l.keys, r.keys);
    }
  }

  /** Whatever the schedules of both parties and wherever each keeps its columns: with the plan each
      chose for itself, joining bucket by bucket gives the join of the whole tables exactly when
      the agreed batch has at least PARALLELISM rows, or there is nothing to join. */
  lemma BucketedExecution(l: Party, r: Party, hash: Key -> nat, lp: Plan, rp: Plan,
                          thresholds: seq<nat>, batchRows: seq<nat>, parts: seq<Part>)
    requires thresholds != [] && batchRows != []
    requires Finished(l, ReadSize(Least(batchRows))) && Finished(r, ReadSize(Least(batchRows)))
    requires AgreedPlan(lp, [|l.keys|, |r.keys|], thresholds, batchRows) && lp.Split?
    requires AgreedPlan(rp, [|l.keys|, |r.keys|], thresholds, batchRows) && rp.Split?
    requires |parts| == lp.buckets
    requires PartsOf(parts, l, r, ReadSize(Least(batchRows)), lp.buckets, rp.buckets, hash)
    ensures AllWithin(parts)
    ensures
      Joins(AllPairs(parts), l.keys, r.keys)
      <==> Least(batchRows) >= BucketSchedule.PARALLELISM || NoMatch(l.keys, r.keys)
  {
    SamePlan(lp, rp, [|l.keys|, |r.keys|], thresholds, batchRows);
    PartsJoinIff(parts, l, r, ReadSize(Least(batchRows)), hash);
  }
}
